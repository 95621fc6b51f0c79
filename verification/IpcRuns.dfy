/** Every run of the IPC tables: reachable states, handles and rights. */
module IpcRuns {
  import opened Ipc
  import opened IpcInvariant

  // -------------------------------------------------- small changes of state

  /** Changing only how a live task waits keeps the invariant. */
  lemma TaskKeeps(k: Kernel, t: nat, u: Task)
    requires Inv(k) && t < |k.tasks| && Live(k.tasks[t]) && Live(u)
    requires u.pid == k.tasks[t].pid && u.caps == k.tasks[t].caps && u.limit == k.tasks[t].limit
    requires u.state.Blocked? ==> WaiterOk(k, u)
    ensures Inv(k.(tasks := k.tasks[t := u]))
  {
    hide WaiterOk, CapsValid, AllReferenced, OwnersLive, VacantClean, PidsOk, Used;
    var r := k.(tasks := k.tasks[t := u]);
    forall j | 0 <= j < |r.tasks| && r.tasks[j].state.Blocked?
      ensures WaiterOk(r, r.tasks[j])
    {
      WaiterFrame(k, r, r.tasks[j]);
    }
    MildKeeps(k, r, -1);
  }

  /** Changing only the queue of an endpoint nobody waits on, or emptying it, keeps the invariant. */
  lemma QueueKeeps(k: Kernel, i: nat, e: Endpoint)
    requires Inv(k) && i < |k.endpoints| && RingOk(e)
    requires e.owner == k.endpoints[i].owner && e.epoch == k.endpoints[i].epoch
    requires k.endpoints[i].count == 0 && e.count != 0 ==>
               forall j :: 0 <= j < |k.tasks| ==> !(k.tasks[j].state.Blocked? && k.tasks[j].wait == i + 1)
    ensures Inv(k.(endpoints := k.endpoints[i := e]))
  {
    hide WaiterOk, CapsValid, AllReferenced, OwnersLive, VacantClean, PidsOk, Used;
    var r := k.(endpoints := k.endpoints[i := e]);
    forall j | 0 <= j < |r.tasks| && r.tasks[j].state.Blocked?
      ensures WaiterOk(r, r.tasks[j])
    {
      WaiterFrame(k, r, k.tasks[j]);
    }
    MildKeeps(k, r, -1);
  }

  lemma ResolvedIsLive(k: Kernel, t: nat, h: nat, rights: set<Right>)
    requires Inv(k) && t < |k.tasks| && Resolve(k, t, h, rights).Some?
    ensures var c := k.tasks[t].caps[Resolve(k, t, h, rights).value];
            CapValid(k, c) && rights <= c.rights
  {
    hide AllReferenced, OwnersLive, WaitersOk, VacantClean, PidsOk, WithinLimits;
  }

  // --------------------------------------------------------------- each event

  lemma CreateKeeps(k: Kernel, t: nat)
    requires Inv(k) && t < |k.tasks| && k.tasks[t].state.Ready?
    ensures Inv(Create(k, t).0)
    ensures Create(k, t).1.NoSpace? ==> Create(k, t).0 == k
  {
    hide Referenced, Used, FirstFree, FreeEndpoint;
    var i := FreeEndpoint(k.endpoints);
    if CapSlot(k.tasks[t]).Some? && i < |k.endpoints| {
      var e := k.endpoints[i].(owner := k.tasks[t].pid, epoch := (k.endpoints[i].epoch + 1) % U32, head := 0, count := 0);
      OpenKeeps(k, t, i, e);
      InstallKeeps(k.(endpoints := k.endpoints[i := e]), t, i, {SEND, RECV, DELEGATE}, -1, i);
    }
  }

  /** A free endpoint has no capabilities and no waiters, so it may be given a new owner. */
  lemma OpenKeeps(k: Kernel, t: nat, i: nat, e: Endpoint)
    requires Inv(k) && t < |k.tasks| && Live(k.tasks[t]) && i < |k.endpoints| && k.endpoints[i].owner == 0
    requires RingOk(e) && e.owner == k.tasks[t].pid && e.count == 0
    ensures Core(k.(endpoints := k.endpoints[i := e]), -1, i)
  {
    hide Referenced, Used, WaiterOk;
    var r := k.(endpoints := k.endpoints[i := e]);
    forall n: nat | n < |r.endpoints| && r.endpoints[n].owner != 0
      ensures n != i ==> Referenced(r, n + 1)
      ensures exists j: nat :: OwnedBy(r, n, j)
    {
      if n == i {
        assert OwnedBy(r, n, t);
      } else {
        SameCapsRefs(k, r, n + 1);
        var j: nat :| OwnedBy(k, n, j);
        assert OwnedBy(r, n, j);
      }
    }
    forall j | 0 <= j < |r.tasks| && r.tasks[j].state.Blocked?
      ensures WaiterOk(r, r.tasks[j])
    {
      WaiterFrame(k, r, k.tasks[j]);
    }
  }

  lemma CapEventKeeps(k: Kernel, ev: Event)
    requires Inv(k) && Enabled(k, ev) && (ev.Closes? || ev.Derives? || ev.Revokes?)
    ensures Inv(Next(k, ev))
  {
    hide AllReferenced, OwnersLive, WaitersOk, VacantClean, PidsOk, WithinLimits, CapsValid, CloseCap, Install, Invalidate;
    match ev
    case Closes(t, h) =>
      if Resolve(k, t, h, {}).Some? {
        ResolvedIsLive(k, t, h, {});
        CloseCapKeeps(k, t, Resolve(k, t, h, {}).value, -1);
      }
    case Derives(t, h, rights, extra) =>
      if Resolve(k, t, h, {DELEGATE}).Some? {
        ResolvedIsLive(k, t, h, {DELEGATE});
        InstallKeeps(k, t, k.tasks[t].caps[Resolve(k, t, h, {DELEGATE}).value].endpoint - 1, rights, -1, -1);
      }
    case Revokes(t, h) =>
      if Resolve(k, t, h, {DELEGATE}).Some? {
        var i := k.tasks[t].caps[Resolve(k, t, h, {DELEGATE}).value].endpoint - 1;
        SkipMore(k, -1, i);
        InvalidateKeeps(k, i, -1);
      }
    case _ =>
  }

  lemma CancelKeeps(k: Kernel, t: nat, h: nat, request: nat, reserved: bool)
    requires Inv(k) && t < |k.tasks|
    ensures Inv(Cancel(k, t, h, request, reserved).0)
  {
    hide AllReferenced, OwnersLive, WaitersOk, VacantClean, PidsOk, WithinLimits, CapsValid;
    if Resolve(k, t, h, {SEND}).Some? && !reserved {
      var i := k.tasks[t].caps[Resolve(k, t, h, {SEND}).value].endpoint - 1;
      QueueKeeps(k, i, Compacted(k.endpoints[i], k.tasks[t].pid, request));
    }
  }

  lemma SendKeeps(k: Kernel, t: nat, h: nat, m: Message, readable: bool, wellFormed: bool, late: bool)
    requires Inv(k) && t < |k.tasks|
    ensures Inv(Send(k, t, h, m, readable, wellFormed, late).0)
  {
    hide AllReferenced, OwnersLive, WaitersOk, VacantClean, PidsOk, WithinLimits, CapsValid, FirstWaiter, WaiterOk;
    if Resolve(k, t, h, {SEND}).Some? && readable && wellFormed && !late {
      var ep := k.tasks[t].caps[Resolve(k, t, h, {SEND}).value].endpoint;
      var stamped := m.(sender := k.tasks[t].pid);
      var j := FirstWaiter(k.tasks, ep);
      if j < |k.tasks| {
        TaskKeeps(k, j, k.tasks[j].(state := Ready, wake := Got(k.tasks[t].pid, stamped)));
      } else if k.endpoints[ep - 1].count < RING {
        QueueKeeps(k, ep - 1, Enqueue(k.endpoints[ep - 1], stamped));
      }
    }
  }

  lemma ReceiveKeeps(k: Kernel, t: nat, h: nat, writable: bool, deadline: nat, now: nat)
    requires Inv(k) && t < |k.tasks| && k.tasks[t].state.Ready?
    ensures Inv(Receive(k, t, h, writable, deadline, now).0)
  {
    hide AllReferenced, OwnersLive, WaitersOk, VacantClean, PidsOk, WithinLimits, CapsValid;
    if Resolve(k, t, h, {RECV}).Some? && writable {
      var slot := Resolve(k, t, h, {RECV}).value;
      var ep := k.tasks[t].caps[slot].endpoint;
      var e := k.endpoints[ep - 1];
      if e.count > 0 {
        QueueKeeps(k, ep - 1, Dequeue(e));
        var taken := k.(endpoints := k.endpoints[ep - 1 := Dequeue(e)]);
        TaskKeeps(taken, t, k.tasks[t].(wake := Got(e.queue[e.head].sender, e.queue[e.head])));
      } else {
        assert Receiving(k.tasks[t].caps[slot], ep);
        TaskKeeps(k, t, k.tasks[t].(state := Blocked, wait := ep, deadline := deadline, wake := Nothing));
      }
    }
  }

  lemma TicksKeeps(k: Kernel, now: nat)
    requires Inv(k)
    ensures Inv(Deadlines(k, now))
  {
    hide WaiterOk, CapsValid, AllReferenced, OwnersLive, VacantClean, PidsOk, Used;
    var r := Deadlines(k, now);
    forall j | 0 <= j < |r.tasks| && r.tasks[j].state.Blocked?
      ensures WaiterOk(r, r.tasks[j])
    {
      WaiterFrame(k, r, k.tasks[j]);
    }
    MildKeeps(k, r, -1);
  }

  // -------------------------------------------------------------------- spawn

  lemma BornKeeps(k: Kernel, j: nat)
    requires Inv(k) && Shape(k) && j < |k.tasks| && Vacant(k.tasks[j]) && k.nextPid != 0
    ensures Core(Born(k, j), j, -1)
  {
    hide Referenced, Used, WaiterOk;
    var r := Born(k, j);
    UsedNone(r.tasks[j].caps);
    forall n: nat | n < |r.endpoints| && r.endpoints[n].owner != 0
      ensures Referenced(r, n + 1)
      ensures exists i: nat :: OwnedBy(r, n, i)
    {
      SameCapsRefs(k, r, n + 1);
      var i: nat :| OwnedBy(k, n, i);
      assert OwnedBy(r, n, i);
    }
    forall i | 0 <= i < |r.tasks| && i != j && r.tasks[i].state.Blocked?
      ensures WaiterOk(r, r.tasks[i])
    {
      WaiterFrame(k, r, k.tasks[i]);
    }
  }

  lemma GrantKeeps(k: Kernel, from: nat, to: nat, g: Grant)
    requires Core(k, to, -1) && from < |k.tasks| && to < |k.tasks|
    ensures Core(GrantOne(k, from, to, g).0, to, -1)
    ensures GrantOne(k, from, to, g).0.nextPid == k.nextPid
    ensures GrantOne(k, from, to, g).0.tasks[to].(caps := []) == k.tasks[to].(caps := [])
    ensures forall i :: 0 <= i < |k.tasks| && i != to ==> GrantOne(k, from, to, g).0.tasks[i] == k.tasks[i]
    ensures GrantOne(k, from, to, g).0.endpoints == k.endpoints
  {
    hide AllReferenced, OwnersLive, WaitersOk, VacantClean, PidsOk, WithinLimits;
    if !g.extra && Resolve(k, from, g.handle, {DELEGATE}).Some? {
      var c := k.tasks[from].caps[Resolve(k, from, g.handle, {DELEGATE}).value];
      assert CapValid(k, c);
      InstallKeeps(k, to, c.endpoint - 1, g.rights, to, -1);
    }
  }

  lemma {:induction false} GrantAllKeeps(k: Kernel, from: nat, to: nat, gs: seq<Grant>, n: nat)
    requires Core(k, to, -1) && from < |k.tasks| && to < |k.tasks| && n <= |gs|
    ensures Core(GrantAll(k, from, to, gs, n).0, to, -1)
    ensures GrantAll(k, from, to, gs, n).0.nextPid == k.nextPid
    ensures GrantAll(k, from, to, gs, n).0.tasks[to].(caps := []) == k.tasks[to].(caps := [])
    ensures forall i :: 0 <= i < |k.tasks| && i != to ==> GrantAll(k, from, to, gs, n).0.tasks[i] == k.tasks[i]
    ensures GrantAll(k, from, to, gs, n).0.endpoints == k.endpoints
    decreases n
  {
    hide Core, GrantOne;
    CoreShape(k, to);
    if n > 0 {
      GrantAllKeeps(k, from, to, gs, n - 1);
      var b := GrantAll(k, from, to, gs, n - 1);
      if b.1 {
        GrantKeeps(b.0, from, to, gs[n - 1]);
      }
    }
  }

  lemma StartKeeps(k: Kernel, t: nat)
    requires Core(k, t, -1) && t < |k.tasks| && k.tasks[t].state.Empty? && k.tasks[t].pid != 0
    ensures Inv(k.(tasks := k.tasks[t := k.tasks[t].(state := Ready)]))
  {
    hide Referenced, Used, WaiterOk;
    var r := k.(tasks := k.tasks[t := k.tasks[t].(state := Ready)]);
    forall n: nat | n < |r.endpoints| && r.endpoints[n].owner != 0
      ensures Referenced(r, n + 1)
      ensures exists j: nat :: OwnedBy(r, n, j)
    {
      SameCapsRefs(k, r, n + 1);
      var j: nat :| OwnedBy(k, n, j);
      assert OwnedBy(r, n, j);
    }
    forall j | 0 <= j < |r.tasks| && r.tasks[j].state.Blocked?
      ensures WaiterOk(r, r.tasks[j])
    {
      WaiterFrame(k, r, k.tasks[j]);
    }
  }

  lemma SpawnKeeps(k: Kernel, parent: nat, gs: seq<Grant>, fails: bool)
    requires Inv(k) && parent < |k.tasks|
    ensures Inv(Spawn(k, parent, gs, fails).0)
  {
    hide Core, GrantAll, TaskDead, FirstVacant, Born, Shape;
    CoreShape(k, -1);
    var j := FirstVacant(k.tasks);
    if j < |k.tasks| && 0 < k.nextPid <= PID_MAX {
      BornKeeps(k, j);
      var born := Born(k, j);
      CoreShape(born, j);
      GrantAllKeeps(born, parent, j, gs, |gs|);
      var g := GrantAll(born, parent, j, gs, |gs|);
      if fails || !g.1 {
        DeadKeeps(g.0, j);
      } else {
        StartKeeps(g.0, j);
      }
    }
  }

  lemma LimitKeeps(k: Kernel, target: nat, limit: nat)
    requires Inv(k) && target < |k.tasks|
    ensures Inv(SetLimit(k, target, limit).0)
  {
    hide WaiterOk, CapsValid, AllReferenced, OwnersLive, VacantClean, PidsOk, Used;
    var r := SetLimit(k, target, limit).0;
    forall j | 0 <= j < |r.tasks| && r.tasks[j].state.Blocked?
      ensures WaiterOk(r, r.tasks[j])
    {
      WaiterSame(k, r, k.tasks[j], r.tasks[j]);
    }
    MildKeeps(k, r, -1);
  }

  lemma WaiterSame(k: Kernel, r: Kernel, t: Task, u: Task)
    requires WaiterOk(k, t) && r.endpoints == k.endpoints && u.caps == t.caps && u.wait == t.wait
    ensures WaiterOk(r, u)
  {
  }

  // --------------------------------------------------------------------- runs

  /** Every system call, tick, kill and spawn keeps the whole invariant. */
  lemma NextKeeps(k: Kernel, ev: Event)
    requires Inv(k) && Shape(k) && Enabled(k, ev)
    ensures Inv(Next(k, ev))
  {
    hide Inv, Create, Close, Derive, Revoke, Cancel, Send, Receive, Deadlines, TaskDead, Spawn, SetLimit;
    match ev
    case Creates(t) => CreateKeeps(k, t);
    case Closes(_, _) => CapEventKeeps(k, ev);
    case Derives(_, _, _, _) => CapEventKeeps(k, ev);
    case Revokes(_, _) => CapEventKeeps(k, ev);
    case Cancels(t, h, request, reserved) => CancelKeeps(k, t, h, request, reserved);
    case Sends(t, h, m, readable, wellFormed, late) => SendKeeps(k, t, h, m, readable, wellFormed, late);
    case Receives(t, h, writable, deadline, now) => ReceiveKeeps(k, t, h, writable, deadline, now);
    case Ticks(now) => TicksKeeps(k, now);
    case Dies(t) =>
      Exempt(k, t);
      DeadKeeps(k, t);
    case Spawns(t, grants, fails) => SpawnKeeps(k, t, grants, fails);
    case Limits(target, limit) => LimitKeeps(k, target, limit);
  }

  ghost predicate IsRun(run: seq<Kernel>, evs: seq<Event>) {
    && |run| == |evs| + 1 && Inv(run[0])
    && forall i {:trigger evs[i]} :: 0 <= i < |evs| ==> Shape(run[i]) && Enabled(run[i], evs[i]) && run[i + 1] == Next(run[i], evs[i])
  }

  lemma {:induction false} RunInv(run: seq<Kernel>, evs: seq<Event>, i: nat)
    requires IsRun(run, evs) && i < |run|
    ensures Inv(run[i])
  {
    hide Inv, Next;
    if i > 0 {
      RunInv(run, evs, i - 1);
      assert run[i] == Next(run[i - 1], evs[i - 1]);
      NextKeeps(run[i - 1], evs[i - 1]);
    }
  }

  /** A machine with no tasks started and no endpoints in use. */
  lemma BootInv(k: Kernel)
    requires Shape(k) && Booting(k) && k.nextPid == 1
    requires forall j :: 0 <= j < |k.tasks| ==> k.tasks[j].limit <= CAPS && NoCaps(k.tasks[j])
    requires forall i :: 0 <= i < |k.endpoints| ==> k.endpoints[i].owner == 0
    ensures Inv(k)
  {
    forall j | 0 <= j < |k.tasks|
      ensures Used(k.tasks[j].caps) == 0
    {
      UsedNone(k.tasks[j].caps);
    }
  }

  /** From boot the first task starts, in the first slot and with the first process identifier. */
  lemma BootStarts(k: Kernel)
    requires Inv(k) && Shape(k) && Booting(k) && |k.tasks| > 0 && k.nextPid == 1
    ensures var first := Next(k, Spawns(0, [], false));
            && IsRun([k, first], [Spawns(0, [], false)])
            && |first.tasks| == |k.tasks| && first.tasks[0].state.Ready? && first.tasks[0].pid == 1
  {
    hide Inv;
    var ev := Spawns(0, [], false);
    assert FirstVacant(k.tasks) == 0;
    assert GrantAll(Born(k, 0), 0, 0, [], 0) == (Born(k, 0), true);
    assert [ev][0] == ev;
  }

  lemma ReferencedIsLive(k: Kernel, i: nat)
    requires Shape(k) && CapsValid(k) && i < |k.endpoints| && Referenced(k, i + 1)
    ensures k.endpoints[i].owner != 0
  {
    var j: nat, s: nat :| j < |k.tasks| && s < |k.tasks[j].caps| && RefAt(k, j, s, i + 1);
    assert CapValid(k, k.tasks[j].caps[s]);
  }

  /**
   In every reachable state an endpoint is live exactly while a capability names
   it, its owner is a live task, capabilities carry its epoch, a task is blocked
   only with a RECV right on an empty queue, and no task exceeds its limit.
   */
  lemma ReachableFacts(run: seq<Kernel>, evs: seq<Event>, n: nat)
    requires IsRun(run, evs) && n < |run|
    ensures var k := run[n];
            && (forall i: nat :: i < |k.endpoints| ==> (k.endpoints[i].owner != 0 <==> Referenced(k, i + 1)))
            && (forall i: nat :: i < |k.endpoints| && k.endpoints[i].owner != 0 ==> exists j: nat :: OwnedBy(k, i, j))
            && (forall j, s :: 0 <= j < |k.tasks| && 0 <= s < |k.tasks[j].caps| && k.tasks[j].caps[s].endpoint != 0 ==> CapValid(k, k.tasks[j].caps[s]))
            && (forall j, i: nat :: 0 <= j < |k.tasks| && k.tasks[j].state.Blocked? && i < |k.endpoints| && k.endpoints[i].count > 0 ==> k.tasks[j].wait != i + 1)
            && (forall j :: 0 <= j < |k.tasks| && k.tasks[j].state.Blocked? ==> WaiterOk(k, k.tasks[j]))
            && (forall j :: 0 <= j < |k.tasks| ==> Used(k.tasks[j].caps) <= k.tasks[j].limit <= CAPS)
  {
    hide Used, Next, Enabled, Referenced;
    RunInv(run, evs, n);
    var k := run[n];
    forall i: nat | i < |k.endpoints| && Referenced(k, i + 1)
      ensures k.endpoints[i].owner != 0
    {
      ReferencedIsLive(k, i);
    }
    forall j, i: nat | 0 <= j < |k.tasks| && k.tasks[j].state.Blocked? && i < |k.endpoints| && k.endpoints[i].count > 0
      ensures k.tasks[j].wait != i + 1
    {
      assert WaiterOk(k, k.tasks[j]);
    }
  }

  // ------------------------------------------------------------------ handles

  /** A slot keeps its capability, loses it, or moves on to a later generation. */
  predicate CapStep(c: Cap, d: Cap) {
    d == c || d == c.(endpoint := 0) || d.generation > c.generation
  }

  ghost predicate TaskStep(t: Task, u: Task) {
    |u.caps| == |t.caps| && forall s :: 0 <= s < |t.caps| ==> CapStep(t.caps[s], u.caps[s])
  }

  ghost predicate TableStep(k: Kernel, r: Kernel) {
    |r.tasks| == |k.tasks| && forall j :: 0 <= j < |k.tasks| ==> TaskStep(k.tasks[j], r.tasks[j])
  }

  lemma TableTransitive(a: Kernel, b: Kernel, c: Kernel)
    requires TableStep(a, b) && TableStep(b, c)
    ensures TableStep(a, c)
  {
    forall j | 0 <= j < |a.tasks|
      ensures TaskStep(a.tasks[j], c.tasks[j])
    {
      assert TaskStep(a.tasks[j], b.tasks[j]) && TaskStep(b.tasks[j], c.tasks[j]);
      forall s | 0 <= s < |a.tasks[j].caps|
        ensures CapStep(a.tasks[j].caps[s], c.tasks[j].caps[s])
      {
        assert CapStep(a.tasks[j].caps[s], b.tasks[j].caps[s]) && CapStep(b.tasks[j].caps[s], c.tasks[j].caps[s]);
      }
    }
  }

  lemma SameTasksStep(k: Kernel, r: Kernel)
    requires SameTasks(k, r)
    ensures TableStep(k, r)
  {
    forall j | 0 <= j < |k.tasks|
      ensures TaskStep(k.tasks[j], r.tasks[j])
    {
      assert SameTask(k.tasks[j], r.tasks[j]);
    }
  }

  lemma InstallStep(k: Kernel, t: nat, ep: nat, rights: set<Right>)
    requires Shape(k) && t < |k.tasks| && ep < |k.endpoints|
    ensures TableStep(k, Install(k, t, ep, rights).0)
  {
    hide Used, FirstFree;
  }

  lemma {:induction false} GrantsStep(k: Kernel, from: nat, to: nat, gs: seq<Grant>, n: nat)
    requires Shape(k) && from < |k.tasks| && to < |k.tasks| && n <= |gs|
    ensures TableStep(k, GrantAll(k, from, to, gs, n).0)
    decreases n
  {
    hide Install;
    if n > 0 {
      GrantsStep(k, from, to, gs, n - 1);
      var b := GrantAll(k, from, to, gs, n - 1);
      if b.1 {
        var g := gs[n - 1];
        if !g.extra && Resolve(b.0, from, g.handle, {DELEGATE}).Some? {
          var c := b.0.tasks[from].caps[Resolve(b.0, from, g.handle, {DELEGATE}).value];
          InstallStep(b.0, to, c.endpoint - 1, g.rights);
          TableTransitive(k, b.0, Install(b.0, to, c.endpoint - 1, g.rights).0);
        }
      }
    }
  }

  lemma DiesStep(k: Kernel, t: nat)
    requires Core(k, t, -1) && Shape(k) && t < |k.tasks|
    ensures TableStep(k, TaskDead(k, t))
  {
    hide Core, Cleanup;
    DeadKeeps(k, t);
    SameTasksStep(k, Cleanup(k, t));
    assert TaskStep(k.tasks[t], Cleanup(k, t).tasks[t]);
  }

  lemma SpawnStep(k: Kernel, parent: nat, gs: seq<Grant>, fails: bool)
    requires Inv(k) && Shape(k) && parent < |k.tasks|
    ensures TableStep(k, Spawn(k, parent, gs, fails).0)
  {
    hide Core, GrantAll, TaskDead, FirstVacant;
    var j := FirstVacant(k.tasks);
    if j < |k.tasks| && 0 < k.nextPid <= PID_MAX {
      BornKeeps(k, j);
      var born := Born(k, j);
      assert TableStep(k, born);
      GrantsStep(born, parent, j, gs, |gs|);
      GrantAllKeeps(born, parent, j, gs, |gs|);
      var g := GrantAll(born, parent, j, gs, |gs|);
      TableTransitive(k, born, g.0);
      if fails || !g.1 {
        DiesStep(g.0, j);
        TableTransitive(k, g.0, TaskDead(g.0, j));
      } else {
        assert TaskStep(k.tasks[j], g.0.tasks[j]);
      }
    }
  }

  lemma CapEventStep(k: Kernel, ev: Event)
    requires Inv(k) && Shape(k) && Enabled(k, ev) && (ev.Creates? || ev.Closes? || ev.Derives? || ev.Revokes?)
    ensures TableStep(k, Next(k, ev))
  {
    hide Core, CloseCap, Install, Invalidate, FreeEndpoint;
    match ev
    case Creates(t) =>
      var i := FreeEndpoint(k.endpoints);
      if CapSlot(k.tasks[t]).Some? && i < |k.endpoints| {
        var e := k.endpoints[i].(owner := k.tasks[t].pid, epoch := (k.endpoints[i].epoch + 1) % U32, head := 0, count := 0);
        InstallStep(k.(endpoints := k.endpoints[i := e]), t, i, {SEND, RECV, DELEGATE});
      }
    case Closes(t, h) =>
      if Resolve(k, t, h, {}).Some? {
        CloseCapFrame(k, t, Resolve(k, t, h, {}).value);
        SameTasksStep(k, CloseCap(k, t, Resolve(k, t, h, {}).value));
      }
    case Derives(t, h, rights, extra) =>
      if Resolve(k, t, h, {DELEGATE}).Some? {
        InstallStep(k, t, k.tasks[t].caps[Resolve(k, t, h, {DELEGATE}).value].endpoint - 1, rights);
      }
    case Revokes(t, h) =>
      if Resolve(k, t, h, {DELEGATE}).Some? {
        var i := k.tasks[t].caps[Resolve(k, t, h, {DELEGATE}).value].endpoint - 1;
        InvalidateFrame(k, i);
        SameTasksStep(k, Invalidate(k, i));
      }
    case _ =>
  }

  /** No event ever reuses a slot's generation. */
  lemma NextStep(k: Kernel, ev: Event)
    requires Inv(k) && Shape(k) && Enabled(k, ev)
    ensures TableStep(k, Next(k, ev))
  {
    hide Core, Create, Close, Derive, Revoke, TaskDead, Spawn, Resolve, Kept, Compacted, FirstWaiter, Enqueue, Dequeue;
    match ev
    case Creates(_) => CapEventStep(k, ev);
    case Closes(_, _) => CapEventStep(k, ev);
    case Derives(_, _, _, _) => CapEventStep(k, ev);
    case Revokes(_, _) => CapEventStep(k, ev);
    case Dies(t) =>
      Exempt(k, t);
      DiesStep(k, t);
    case Spawns(t, grants, fails) => SpawnStep(k, t, grants, fails);
    case _ =>
  }

  lemma {:induction false} RunStep(run: seq<Kernel>, evs: seq<Event>, i: nat, j: nat)
    requires IsRun(run, evs) && i <= j < |run|
    ensures TableStep(run[i], run[j])
    decreases j - i
  {
    hide Inv, Next;
    if i < j {
      RunStep(run, evs, i, j - 1);
      RunInv(run, evs, j - 1);
      assert run[j] == Next(run[j - 1], evs[j - 1]);
      NextStep(run[j - 1], evs[j - 1]);
      TableTransitive(run[i], run[j - 1], run[j]);
    }
  }

  predicate Resolves(k: Kernel, t: nat, h: nat) { Shape(k) && t < |k.tasks| && Resolve(k, t, h, {}).Some? }

  /** In a reachable state a handle resolves exactly when its slot still carries it. */
  lemma ResolvesIff(k: Kernel, t: nat, h: nat)
    requires Inv(k) && t < |k.tasks|
    ensures Resolves(k, t, h) <==> h < U32 && 1 <= h % 256 <= CAPS && Names(k.tasks[t].caps[h % 256 - 1], h, h % 256 - 1)
  {
    hide AllReferenced, OwnersLive, WaitersOk, VacantClean, PidsOk, WithinLimits;
    if h < U32 && 1 <= h % 256 <= CAPS {
      var c := k.tasks[t].caps[h % 256 - 1];
      assert c.endpoint != 0 ==> CapValid(k, c);
    }
  }

  /**
   A handle that stops resolving never resolves again in that task slot, whatever
   later tasks reuse the slot for.
   */
  lemma HandleNeverReturns(run: seq<Kernel>, evs: seq<Event>, i: nat, j: nat, l: nat, t: nat, h: nat)
    requires IsRun(run, evs) && i <= j <= l < |run| && t < |run[i].tasks|
    requires Resolves(run[i], t, h) && !Resolves(run[j], t, h)
    ensures !Resolves(run[l], t, h)
  {
    hide Inv, Next, Resolves;
    RunInv(run, evs, i);
    RunInv(run, evs, j);
    RunInv(run, evs, l);
    RunStep(run, evs, i, j);
    RunStep(run, evs, j, l);
    ResolvesIff(run[i], t, h);
    ResolvesIff(run[j], t, h);
    ResolvesIff(run[l], t, h);
    var s := h % 256 - 1;
    assert TaskStep(run[i].tasks[t], run[j].tasks[t]) && TaskStep(run[j].tasks[t], run[l].tasks[t]);
    Retires(run[i], run[j], run[l], t, s);
  }

  lemma Retires(a: Kernel, b: Kernel, c: Kernel, t: nat, s: nat)
    requires Inv(a) && t < |a.tasks| && s < CAPS && TableStep(a, b) && TableStep(b, c)
    requires a.tasks[t].caps[s].endpoint != 0
    ensures |b.tasks[t].caps| == |c.tasks[t].caps| == CAPS
    ensures b.tasks[t].caps[s].generation == a.tasks[t].caps[s].generation && b.tasks[t].caps[s].endpoint == 0 ==>
              c.tasks[t].caps[s].generation > a.tasks[t].caps[s].generation || c.tasks[t].caps[s].endpoint == 0
    ensures b.tasks[t].caps[s].generation >= a.tasks[t].caps[s].generation
    ensures c.tasks[t].caps[s].generation >= b.tasks[t].caps[s].generation
    ensures b.tasks[t].caps[s].generation == a.tasks[t].caps[s].generation ==>
              b.tasks[t].caps[s] == a.tasks[t].caps[s] || b.tasks[t].caps[s].endpoint == 0
  {
    hide CapsValid, AllReferenced, OwnersLive, WaitersOk, VacantClean, PidsOk, WithinLimits;
    assert TaskStep(a.tasks[t], b.tasks[t]) && TaskStep(b.tasks[t], c.tasks[t]);
    assert CapStep(a.tasks[t].caps[s], b.tasks[t].caps[s]) && CapStep(b.tasks[t].caps[s], c.tasks[t].caps[s]);
  }

  // ------------------------------------------------------------------- rights

  predicate Carries(c: Cap, ep: nat, r: Right) { c.endpoint == ep && r in c.rights }

  ghost predicate HoldsRight(k: Kernel, t: nat, ep: nat, r: Right) {
    t < |k.tasks| && exists s :: 0 <= s < |k.tasks[t].caps| && Carries(k.tasks[t].caps[s], ep, r)
  }

  /** Slots that only lose endpoints give no new right. */
  lemma LosingGivesNothing(k: Kernel, r: Kernel, t: nat, ep: nat, right: Right)
    requires t < |k.tasks| && t < |r.tasks| && |r.tasks[t].caps| == |k.tasks[t].caps| && ep != 0
    requires forall s :: 0 <= s < |k.tasks[t].caps| ==>
               r.tasks[t].caps[s] == k.tasks[t].caps[s] || r.tasks[t].caps[s] == k.tasks[t].caps[s].(endpoint := 0)
    requires HoldsRight(r, t, ep, right)
    ensures HoldsRight(k, t, ep, right)
  {
    var s :| 0 <= s < |r.tasks[t].caps| && Carries(r.tasks[t].caps[s], ep, right);
    assert Carries(k.tasks[t].caps[s], ep, right);
  }

  lemma DeriveGivesNothing(k: Kernel, t: nat, h: nat, rights: set<Right>, extra: bool, ep: nat, right: Right)
    requires Shape(k) && t < |k.tasks| && HoldsRight(Derive(k, t, h, rights, extra).0, t, ep, right)
    ensures HoldsRight(k, t, ep, right)
  {
    hide Used, FirstFree;
    var r := Derive(k, t, h, rights, extra).0;
    var s :| 0 <= s < |r.tasks[t].caps| && Carries(r.tasks[t].caps[s], ep, right);
    if r.tasks[t].caps[s] == k.tasks[t].caps[s] {
      assert Carries(k.tasks[t].caps[s], ep, right);
    } else {
      assert Carries(k.tasks[t].caps[Resolve(k, t, h, {DELEGATE}).value], ep, right);
    }
  }

  /** What an event does to the capabilities of a task it does not act for. */
  lemma BystanderLoses(k: Kernel, ev: Event, t: nat)
    requires Inv(k) && Shape(k) && Enabled(k, ev) && t < |k.tasks| && Live(k.tasks[t])
    requires !(ev.Creates? && ev.t == t) && !(ev.Derives? && ev.t == t)
    ensures t < |Next(k, ev).tasks| && |Next(k, ev).tasks[t].caps| == |k.tasks[t].caps|
    ensures forall s :: 0 <= s < |k.tasks[t].caps| ==>
              Next(k, ev).tasks[t].caps[s] == k.tasks[t].caps[s] || Next(k, ev).tasks[t].caps[s] == k.tasks[t].caps[s].(endpoint := 0)
  {
    hide Core, TaskDead, Spawn, Resolve, Kept, Compacted, FirstWaiter, Enqueue, Dequeue, CloseCap, Invalidate, FreeEndpoint, CapSlot;
    match ev
    case Closes(u, h) =>
      if Resolve(k, u, h, {}).Some? {
        CloseCapFrame(k, u, Resolve(k, u, h, {}).value);
        assert SameTask(k.tasks[t], CloseCap(k, u, Resolve(k, u, h, {}).value).tasks[t]);
      }
    case Revokes(u, h) =>
      if Resolve(k, u, h, {DELEGATE}).Some? {
        var i := k.tasks[u].caps[Resolve(k, u, h, {DELEGATE}).value].endpoint - 1;
        InvalidateFrame(k, i);
        assert SameTask(k.tasks[t], Invalidate(k, i).tasks[t]);
      }
    case Dies(u) =>
      Exempt(k, u);
      DiesLoses(k, u, t);
    case Spawns(u, grants, fails) => SpawnLoses(k, u, grants, fails, t);
    case _ =>
  }

  lemma DiesLoses(k: Kernel, u: nat, t: nat)
    requires Core(k, u, -1) && Shape(k) && u < |k.tasks| && t < |k.tasks|
    ensures t < |TaskDead(k, u).tasks| && |TaskDead(k, u).tasks[t].caps| == |k.tasks[t].caps|
    ensures forall s :: 0 <= s < |k.tasks[t].caps| ==>
              TaskDead(k, u).tasks[t].caps[s] == k.tasks[t].caps[s] || TaskDead(k, u).tasks[t].caps[s] == k.tasks[t].caps[s].(endpoint := 0)
  {
    hide Core, Cleanup;
    DeadKeeps(k, u);
    assert SameTask(k.tasks[t], Cleanup(k, u).tasks[t]);
  }

  lemma SpawnLoses(k: Kernel, parent: nat, gs: seq<Grant>, fails: bool, t: nat)
    requires Inv(k) && Shape(k) && parent < |k.tasks| && t < |k.tasks| && Live(k.tasks[t])
    ensures var r := Spawn(k, parent, gs, fails).0;
            && t < |r.tasks| && |r.tasks[t].caps| == |k.tasks[t].caps|
            && forall s :: 0 <= s < |k.tasks[t].caps| ==>
                 r.tasks[t].caps[s] == k.tasks[t].caps[s] || r.tasks[t].caps[s] == k.tasks[t].caps[s].(endpoint := 0)
  {
    hide Core, GrantAll, TaskDead, FirstVacant, Born;
    var j := FirstVacant(k.tasks);
    if j < |k.tasks| && 0 < k.nextPid <= PID_MAX {
      BornKeeps(k, j);
      var born := Born(k, j);
      CoreShape(born, j);
      GrantAllKeeps(born, parent, j, gs, |gs|);
      var g := GrantAll(born, parent, j, gs, |gs|);
      assert g.0.tasks[t] == k.tasks[t];
      if fails || !g.1 {
        DiesLoses(g.0, j, t);
      }
    }
  }

  /** A started task's rights on an endpoint it does not itself create never grow. */
  lemma RightsNeverGrow(k: Kernel, ev: Event, t: nat, ep: nat, right: Right)
    requires Inv(k) && Shape(k) && Enabled(k, ev) && t < |k.tasks| && Live(k.tasks[t])
    requires 1 <= ep <= |k.endpoints|
    requires !(ev == Creates(t) && FreeEndpoint(k.endpoints) == ep - 1)
    ensures HoldsRight(Next(k, ev), t, ep, right) ==> HoldsRight(k, t, ep, right)
  {
    hide Core, HoldsRight, Next;
    if HoldsRight(Next(k, ev), t, ep, right) {
      if ev.Creates? && ev.t == t {
        CreateGives(k, t, ep, right);
      } else if ev.Derives? && ev.t == t {
        DerivesIs(k, ev);
        DeriveGivesNothing(k, t, ev.h, ev.rights, ev.extra, ep, right);
      } else {
        BystanderLoses(k, ev, t);
        LosingGivesNothing(k, Next(k, ev), t, ep, right);
      }
    }
  }

  /** The task is alive and the event is not its creating this endpoint. */
  predicate KeepsOut(k: Kernel, ev: Event, t: nat, ep: nat) {
    && t < |k.tasks| && Live(k.tasks[t]) && 1 <= ep <= |k.endpoints|
    && !(ev == Creates(t) && FreeEndpoint(k.endpoints) == ep - 1)
  }

  /** Over a stretch of a run in which the task stays alive and creates no such endpoint. */
  lemma {:induction false} RunRightsNeverGrow(run: seq<Kernel>, evs: seq<Event>, i: nat, j: nat, t: nat, ep: nat, right: Right)
    requires IsRun(run, evs) && i <= j < |run| && t < |run[i].tasks| && 1 <= ep <= |run[i].endpoints|
    requires forall n :: i <= n < j ==> KeepsOut(run[n], evs[n], t, ep)
    ensures HoldsRight(run[j], t, ep, right) ==> HoldsRight(run[i], t, ep, right)
    decreases j - i
  {
    hide Inv, Next, HoldsRight, Shape, Enabled, Live;
    if i < j {
      RunRightsNeverGrow(run, evs, i, j - 1, t, ep, right);
      RunInv(run, evs, j - 1);
      assert run[j] == Next(run[j - 1], evs[j - 1]) && KeepsOut(run[j - 1], evs[j - 1], t, ep);
      RightsNeverGrow(run[j - 1], evs[j - 1], t, ep, right);
    }
  }

  lemma DerivesIs(k: Kernel, ev: Event)
    requires Shape(k) && Enabled(k, ev) && ev.Derives?
    ensures Next(k, ev) == Derive(k, ev.t, ev.h, ev.rights, ev.extra).0
  {
  }

  lemma CreateGives(k: Kernel, t: nat, ep: nat, right: Right)
    requires Shape(k) && Enabled(k, Creates(t)) && 1 <= ep <= |k.endpoints| && FreeEndpoint(k.endpoints) != ep - 1
    requires HoldsRight(Next(k, Creates(t)), t, ep, right)
    ensures HoldsRight(k, t, ep, right)
  {
    hide Used, FirstFree;
    var r := Create(k, t).0;
    var s :| 0 <= s < |r.tasks[t].caps| && Carries(r.tasks[t].caps[s], ep, right);
    assert Carries(k.tasks[t].caps[s], ep, right);
  }
}
