/** The IPC kernel as it runs: table scans and in-place updates, refining `Ipc`. */
module IpcKernel {
  import opened Ipc

  class KernelIpc {
    var tasks: seq<Task>
    var endpoints: seq<Endpoint>
    var nextPid: nat

    function State(): Kernel
      reads this
    {
      Kernel(tasks, endpoints, nextPid)
    }

    constructor (tasks: seq<Task>, endpoints: seq<Endpoint>)
      requires Shape(Kernel(tasks, endpoints, 1))
      ensures State() == Kernel(tasks, endpoints, 1)
    {
      this.tasks, this.endpoints, this.nextPid := tasks, endpoints, 1;
    }

    method CapsUsed(t: nat) returns (n: nat)
      requires t < |tasks|
      ensures n == Used(tasks[t].caps)
    {
      n := 0;
      var caps := tasks[t].caps;
      for i := 0 to |caps|
        invariant Used(caps) == n + Used(caps[i..])
      {
        assert caps[i..][1..] == caps[i + 1..];
        if caps[i].endpoint != 0 {
          n := n + 1;
        }
      }
    }

    method FindCapSlot(t: nat) returns (slot: Option<nat>)
      requires Shape(State()) && t < |tasks|
      ensures slot == CapSlot(tasks[t])
    {
      var used := CapsUsed(t);
      if tasks[t].limit > CAPS || used >= tasks[t].limit {
        return None;
      }
      var caps := tasks[t].caps;
      for i := 0 to CAPS
        invariant FirstFree(caps) == i + FirstFree(caps[i..])
      {
        assert caps[i..][1..] == caps[i + 1..];
        if Free(caps[i]) {
          return Some(i);
        }
      }
      slot := None;
    }

    method InstallCap(t: nat, ep: nat, rights: set<Right>) returns (handle: Option<nat>)
      requires Shape(State()) && t < |tasks| && ep < |endpoints|
      modifies this
      ensures (State(), handle) == Install(old(State()), t, ep, rights)
    {
      var slot := FindCapSlot(t);
      if slot.None? {
        return None;
      }
      var c := tasks[t].caps[slot.value];
      var stamped := Cap(ep + 1, endpoints[ep].epoch, rights, c.generation + 1);
      tasks := tasks[t := tasks[t].(caps := tasks[t].caps[slot.value := stamped])];
      handle := Some(Handle(stamped.generation, slot.value));
    }

    static method ClearCaps(caps: seq<Cap>, ep: nat) returns (r: seq<Cap>)
      ensures r == Cleared(caps, ep)
    {
      r := caps;
      for n := 0 to |caps|
        invariant |r| == |caps|
        invariant forall m :: 0 <= m < |caps| ==>
                    r[m] == if m < n && caps[m].endpoint == ep then caps[m].(endpoint := 0) else caps[m]
      {
        if r[n].endpoint == ep {
          r := r[n := r[n].(endpoint := 0)];
        }
      }
    }

    method InvalidateEndpoint(i: nat)
      requires i < |endpoints|
      modifies this
      ensures State() == Invalidate(old(State()), i)
    {
      var e := endpoints[i];
      endpoints := endpoints[i := e.(owner := 0, count := 0, epoch := (e.epoch + 1) % U32)];
      ghost var before := tasks;
      for j := 0 to |tasks|
        modifies `tasks
        invariant |tasks| == |before|
        invariant forall m :: 0 <= m < |before| ==> tasks[m] == if m < j then Detached(before[m], i + 1) else before[m]
      {
        var t := tasks[j];
        if t.state.Blocked? && t.wait == i + 1 {
          t := t.(state := Ready, wake := Revoked);
        }
        var caps := ClearCaps(t.caps, i + 1);
        tasks := tasks[j := t.(caps := caps)];
      }
      assert tasks == AllDetached(before, i + 1);
    }

    method AnyReference(ep: nat) returns (found: bool)
      ensures found == Referenced(State(), ep)
    {
      for j := 0 to |tasks|
        invariant forall m: nat, s: nat :: m < j && s < |tasks[m].caps| ==> !RefAt(State(), m, s, ep)
      {
        for s := 0 to |tasks[j].caps|
          invariant forall n: nat :: n < s ==> !RefAt(State(), j, n, ep)
        {
          if tasks[j].caps[s].endpoint == ep {
            assert RefAt(State(), j, s, ep);
            return true;
          }
        }
      }
      found := false;
    }

    method CloseSlot(t: nat, slot: nat)
      requires Shape(State()) && t < |tasks| && slot < CAPS && 1 <= tasks[t].caps[slot].endpoint <= |endpoints|
      modifies this
      ensures State() == CloseCap(old(State()), t, slot)
    {
      var ep := tasks[t].caps[slot].endpoint;
      tasks := tasks[t := tasks[t].(caps := tasks[t].caps[slot := tasks[t].caps[slot].(endpoint := 0)])];
      var found := AnyReference(ep);
      if !found {
        InvalidateEndpoint(ep - 1);
      }
    }

    method CleanupTask(t: nat)
      requires Shape(State()) && t < |tasks|
      modifies this
      ensures State() == Cleanup(old(State()), t)
    {
      hide Referenced;
      ghost var before := State();
      var pid := tasks[t].pid;
      for i := 0 to |endpoints|
        invariant |endpoints| == |before.endpoints| && State() == EndOwned(before, pid, i)
      {
        if endpoints[i].owner == pid {
          InvalidateEndpoint(i);
        }
      }
      EndOwnedShape(before, pid, |endpoints|);
      ghost var ended := State();
      for s := 0 to CAPS
        invariant State() == DropCaps(ended, t, s)
      {
        if 1 <= tasks[t].caps[s].endpoint <= |endpoints| {
          CloseSlot(t, s);
        }
      }
    }

    method ExpireDeadlines(now: nat)
      modifies `tasks
      ensures State() == Deadlines(old(State()), now)
    {
      ghost var before := tasks;
      for j := 0 to |tasks|
        invariant |tasks| == |before|
        invariant forall m :: 0 <= m < |before| ==> tasks[m] == if m < j then Expired(before[m], now) else before[m]
      {
        var t := tasks[j];
        if t.state.Blocked? && t.deadline != 0 && now >= t.deadline {
          tasks := tasks[j := t.(state := Ready, wake := TimedOut)];
        }
      }
    }

    method SysCreate(t: nat) returns (r: Result)
      requires Shape(State()) && t < |tasks|
      modifies this
      ensures (State(), r) == Create(old(State()), t)
    {
      hide Used;
      var slot := FindCapSlot(t);
      if slot.None? {
        return NoSpace;
      }
      var i := 0;
      while i < |endpoints| && endpoints[i].owner != 0
        modifies {}
        invariant 0 <= i <= |endpoints|
        invariant FreeEndpoint(endpoints) == i + FreeEndpoint(endpoints[i..])
      {
        assert endpoints[i..][1..] == endpoints[i + 1..];
        i := i + 1;
      }
      if i == |endpoints| {
        return NoSpace;
      }
      var e := endpoints[i];
      endpoints := endpoints[i := e.(owner := tasks[t].pid, epoch := (e.epoch + 1) % U32, head := 0, count := 0)];
      var h := InstallCap(t, i, {SEND, RECV, DELEGATE});
      r := if h.Some? then Value(h.value) else NoSpace;
    }

    method SysClose(t: nat, h: nat) returns (r: Result)
      requires Shape(State()) && t < |tasks|
      modifies this
      ensures (State(), r) == Close(old(State()), t, h)
    {
      hide Referenced;
      var slot := Resolve(State(), t, h, {});
      if slot.None? {
        return Stale;
      }
      CloseSlot(t, slot.value);
      r := Value(0);
    }

    method SysDerive(t: nat, h: nat, rights: set<Right>, extra: bool) returns (r: Result)
      requires Shape(State()) && t < |tasks|
      modifies this
      ensures (State(), r) == Derive(old(State()), t, h, rights, extra)
    {
      var slot := Resolve(State(), t, h, {DELEGATE});
      if slot.None? || extra || !(rights <= tasks[t].caps[slot.value].rights) {
        return Denied;
      }
      var handle := InstallCap(t, tasks[t].caps[slot.value].endpoint - 1, rights);
      r := if handle.Some? then Value(handle.value) else NoSpace;
    }

    method SysRevoke(t: nat, h: nat) returns (r: Result)
      requires Shape(State()) && t < |tasks|
      modifies this
      ensures (State(), r) == Revoke(old(State()), t, h)
    {
      var slot := Resolve(State(), t, h, {DELEGATE});
      if slot.None? {
        return Denied;
      }
      var i := tasks[t].caps[slot.value].endpoint - 1;
      if endpoints[i].owner != tasks[t].pid {
        return Denied;
      }
      InvalidateEndpoint(i);
      r := Value(0);
    }

    method SysSend(t: nat, h: nat, m: Message, readable: bool, wellFormed: bool, late: bool) returns (r: Result)
      requires Shape(State()) && t < |tasks|
      modifies this
      ensures (State(), r) == Send(old(State()), t, h, m, readable, wellFormed, late)
    {
      var slot := Resolve(State(), t, h, {SEND});
      if slot.None? {
        return Stale;
      }
      if !readable {
        return Denied;
      }
      if !wellFormed {
        return Invalid;
      }
      if late {
        return Timeout;
      }
      var ep, stamped := tasks[t].caps[slot.value].endpoint, m.(sender := tasks[t].pid);
      var j := 0;
      while j < |tasks| && !(tasks[j].state.Blocked? && tasks[j].wait == ep)
        modifies {}
        invariant 0 <= j <= |tasks|
        invariant FirstWaiter(tasks, ep) == j + FirstWaiter(tasks[j..], ep)
      {
        assert tasks[j..][1..] == tasks[j + 1..];
        j := j + 1;
      }
      if j < |tasks| {
        tasks := tasks[j := tasks[j].(state := Ready, wake := Got(tasks[t].pid, stamped))];
        return Value(0);
      }
      var e := endpoints[ep - 1];
      if e.count == RING {
        return WouldBlock;
      }
      endpoints := endpoints[ep - 1 := Enqueue(e, stamped)];
      r := Value(0);
    }

    method SysReceive(t: nat, h: nat, writable: bool, deadline: nat, now: nat) returns (r: Result)
      requires Shape(State()) && t < |tasks|
      modifies this
      ensures (State(), r) == Receive(old(State()), t, h, writable, deadline, now)
    {
      var slot := Resolve(State(), t, h, {RECV});
      if slot.None? {
        return Stale;
      }
      if !writable {
        return Denied;
      }
      var ep := tasks[t].caps[slot.value].endpoint;
      var e := endpoints[ep - 1];
      if e.count > 0 {
        var m := e.queue[e.head];
        tasks := tasks[t := tasks[t].(wake := Got(m.sender, m))];
        endpoints := endpoints[ep - 1 := e.(head := (e.head + 1) % RING, count := e.count - 1)];
        return Value(m.sender);
      }
      if deadline != 0 && now >= deadline {
        return Timeout;
      }
      tasks := tasks[t := tasks[t].(state := Blocked, wait := ep, deadline := deadline, wake := Nothing)];
      r := Value(0);
    }

    /** Moves the survivors of a withdrawal down the same ring. */
    static method Pack(e: Endpoint, pid: nat, request: nat) returns (queue: seq<Message>, kept: nat)
      requires RingOk(e)
      ensures |queue| == RING && kept == |Kept(Ring(e), pid, request)| <= e.count
      ensures Rotated(queue, e.head)[..kept] == Kept(Ring(e), pid, request)
      ensures Rotated(queue, e.head)[e.count..] == Rotated(e.queue, e.head)[e.count..]
    {
      hide Kept, Ring, Rotated;
      queue, kept := e.queue, 0;
      ghost var whole := Rotated(queue, e.head);
      ghost var q := Ring(e);
      RingIsRotated(e);
      KeptNone(q, pid, request);
      for i := 0 to e.count
        invariant |queue| == RING && kept == |Kept(q[..i], pid, request)| <= i
        invariant Rotated(queue, e.head)[..kept] == Kept(q[..i], pid, request)
        invariant Rotated(queue, e.head)[i..] == whole[i..]
      {
        RotatedAt(queue, e.head, i);
        KeptNext(q, i, pid, request);
        var m := queue[(e.head + i) % RING];
        assert m == Rotated(queue, e.head)[i..][0] == q[i];
        ghost var v := Rotated(queue, e.head);
        if !(m.sender == pid && m.request == request) {
          PackStep(v, whole, kept, i, m);
          if kept != i {
            RotatedUpdate(queue, e.head, kept, m);
            queue := queue[(e.head + kept) % RING := m];
          }
          kept := kept + 1;
        } else {
          assert v[i + 1..] == v[i..][1..];
        }
      }
      assert q[..e.count] == q;
    }

    /** Blanks the cells the survivors vacated. */
    static method Erase(queue: seq<Message>, head: nat, kept: nat, count: nat) returns (r: seq<Message>)
      requires |queue| == RING && head < RING && kept <= count <= RING
      ensures |r| == RING && Rotated(r, head)[..kept] == Rotated(queue, head)[..kept]
      ensures Rotated(r, head)[count..] == Rotated(queue, head)[count..]
      ensures forall l :: kept <= l < count ==> Rotated(r, head)[l] == ERASED
    {
      hide Rotated;
      r := queue;
      ghost var packed := Rotated(queue, head);
      for i := kept to count
        invariant |r| == RING
        invariant forall l :: 0 <= l < RING ==> Rotated(r, head)[l] == if kept <= l < i then ERASED else packed[l]
      {
        RotatedUpdate(r, head, i, ERASED);
        r := r[(head + i) % RING := ERASED];
      }
    }

    /** Removes matching messages in place: pack the survivors, then erase the rest. */
    static method Compact(e: Endpoint, pid: nat, request: nat) returns (r: Endpoint, removed: nat)
      requires RingOk(e)
      ensures r == Compacted(e, pid, request)
      ensures removed == e.count - |Kept(Ring(e), pid, request)|
    {
      hide Compacted, Kept, Ring, Rotated;
      var queue, kept := Pack(e, pid, request);
      removed := e.count - kept;
      if removed == 0 {
        CompactedSame(e, pid, request);
        return e, 0;
      }
      queue := Erase(queue, e.head, kept, e.count);
      r := e.(count := kept, head := if kept == 0 then 0 else e.head, queue := queue);
      CompactedIs(e, pid, request, queue);
    }

    method SysCancel(t: nat, h: nat, request: nat, reserved: bool) returns (r: Result)
      requires Shape(State()) && t < |tasks|
      modifies this
      ensures (State(), r) == Cancel(old(State()), t, h, request, reserved)
    {
      hide Compacted, Kept;
      var slot := Resolve(State(), t, h, {SEND});
      if slot.None? {
        return Stale;
      }
      if reserved {
        return Invalid;
      }
      var i := tasks[t].caps[slot.value].endpoint - 1;
      var e, removed := Compact(endpoints[i], tasks[t].pid, request);
      endpoints := endpoints[i := e];
      r := Value(removed);
    }

    method KillTask(t: nat)
      requires Shape(State()) && t < |tasks|
      modifies this
      ensures State() == TaskDead(old(State()), t)
    {
      hide Cleanup;
      CleanupTask(t);
      CleanupShape(old(State()), t);
      tasks := tasks[t := tasks[t].(state := Dead)];
    }

    method SpawnTask(parent: nat, gs: seq<Grant>, fails: bool) returns (r: Result)
      requires Shape(State()) && parent < |tasks|
      modifies this
      ensures (State(), r) == Spawn(old(State()), parent, gs, fails)
    {
      hide TaskDead, GrantOne;
      var j := 0;
      while j < |tasks| && !Vacant(tasks[j])
        modifies {}
        invariant 0 <= j <= |tasks|
        invariant FirstVacant(tasks) == j + FirstVacant(tasks[j..])
      {
        assert tasks[j..][1..] == tasks[j + 1..];
        j := j + 1;
      }
      if j == |tasks| || nextPid == 0 || nextPid > PID_MAX {
        return NoSpace;
      }
      var pid := nextPid;
      tasks, nextPid := tasks[j := Reborn(tasks[j], pid)], nextPid + 1;
      ghost var born := State();
      assert born == Born(old(State()), j);
      var ok, n := true, 0;
      while n < |gs| && ok
        invariant 0 <= n <= |gs| && Shape(State()) && |tasks| == |born.tasks|
        invariant (State(), ok) == GrantAll(born, parent, j, gs, n)
      {
        GrantShape(State(), parent, j, gs[n]);
        ok := GrantCap(parent, j, gs[n]);
        n := n + 1;
      }
      GrantStops(born, parent, j, gs, n);
      if fails || !ok {
        KillTask(j);
        return NoSpace;
      }
      tasks := tasks[j := tasks[j].(state := Ready)];
      r := Value(pid);
    }

    method GrantCap(from: nat, to: nat, g: Grant) returns (ok: bool)
      requires Shape(State()) && from < |tasks| && to < |tasks|
      modifies this
      ensures (State(), ok) == GrantOne(old(State()), from, to, g)
    {
      var slot := Resolve(State(), from, g.handle, {DELEGATE});
      if g.extra || slot.None? || !(g.rights <= tasks[from].caps[slot.value].rights) {
        return false;
      }
      var handle := InstallCap(to, tasks[from].caps[slot.value].endpoint - 1, g.rights);
      ok := handle.Some?;
    }
  }

  /** The ring cells in logical order. */
  function Rotated(queue: seq<Message>, head: nat): (r: seq<Message>)
    requires |queue| == RING && head < RING
    ensures |r| == RING
  {
    queue[head..] + queue[..head]
  }

  lemma RotatedAt(queue: seq<Message>, head: nat, l: nat)
    requires |queue| == RING && head < RING && l < RING
    ensures Rotated(queue, head)[l] == queue[(head + l) % 8]
  {
  }

  lemma RotatedUpdate(queue: seq<Message>, head: nat, l: nat, m: Message)
    requires |queue| == RING && head < RING && l < RING
    ensures Rotated(queue[(head + l) % 8 := m], head) == Rotated(queue, head)[l := m]
  {
    var p := (head + l) % 8;
    assert p == if head + l < 8 then head + l else head + l - 8;
  }

  lemma RingIsRotated(e: Endpoint)
    requires RingOk(e)
    ensures Ring(e) == Rotated(e.queue, e.head)[..e.count]
  {
    forall l | 0 <= l < e.count
      ensures Ring(e)[l] == Rotated(e.queue, e.head)[l]
    {
      RotatedAt(e.queue, e.head, l);
    }
  }

  lemma KeptNone(q: seq<Message>, pid: nat, request: nat)
    ensures Kept(q[..0], pid, request) == []
  {
  }

  /** Storing a survivor at or before the cell it was read from loses nothing unread. */
  lemma PackStep(v: seq<Message>, whole: seq<Message>, kept: nat, i: nat, m: Message)
    requires |v| == |whole| && kept <= i < |v| && v[i..] == whole[i..] && m == v[i]
    ensures v[kept := m][..kept + 1] == v[..kept] + [m]
    ensures v[kept := m][i + 1..] == whole[i + 1..]
    ensures kept == i ==> v[kept := m] == v
  {
    assert forall l :: i <= l < |v| ==> v[l] == v[i..][l - i] && whole[l] == whole[i..][l - i];
  }

  lemma KeptNext(q: seq<Message>, i: nat, pid: nat, request: nat)
    requires i < |q|
    ensures Kept(q[..i + 1], pid, request) == Kept(q[..i], pid, request) + (if Matches(q[i], pid, request) then [] else [q[i]])
  {
    assert q[..i + 1][..i] == q[..i];
  }

  lemma CompactedSame(e: Endpoint, pid: nat, request: nat)
    requires RingOk(e) && |Kept(Ring(e), pid, request)| == e.count
    ensures Compacted(e, pid, request) == e
  {
  }

  lemma CompactedIs(e: Endpoint, pid: nat, request: nat, queue: seq<Message>)
    requires RingOk(e) && |queue| == RING && |Kept(Ring(e), pid, request)| != e.count
    requires var kept, v, w := Kept(Ring(e), pid, request), Rotated(queue, e.head), Rotated(e.queue, e.head);
             && v[..|kept|] == kept && v[e.count..] == w[e.count..]
             && forall l :: |kept| <= l < e.count ==> v[l] == ERASED
    ensures var kept := Kept(Ring(e), pid, request);
            Compacted(e, pid, request) == e.(count := |kept|, head := if kept == [] then 0 else e.head, queue := queue)
  {
    hide Kept, Ring;
    var kept, v, w := Kept(Ring(e), pid, request), Rotated(queue, e.head), Rotated(e.queue, e.head);
    forall p: nat | p < RING
      ensures queue[p] == v[Logical(e, p)] && e.queue[p] == w[Logical(e, p)]
    {
      assert Logical(e, p) == if p >= e.head then p - e.head else p + 8 - e.head;
    }
    assert forall l :: e.count <= l < RING ==> v[l] == v[e.count..][l - e.count] && w[l] == w[e.count..][l - e.count];
    assert forall l :: 0 <= l < |kept| ==> v[l] == v[..|kept|][l];
    assert Compacted(e, pid, request).queue == queue;
  }

  lemma CleanupShape(k: Kernel, t: nat)
    requires Shape(k) && t < |k.tasks|
    ensures |Cleanup(k, t).tasks| == |k.tasks|
  {
    EndOwnedShape(k, k.tasks[t].pid, |k.endpoints|);
  }

  /** Once a grant fails the rest are not attempted. */
  lemma {:induction false} GrantStops(k: Kernel, from: nat, to: nat, gs: seq<Grant>, n: nat)
    requires Shape(k) && from < |k.tasks| && to < |k.tasks| && n <= |gs|
    requires n == |gs| || !GrantAll(k, from, to, gs, n).1
    ensures GrantAll(k, from, to, gs, |gs|) == GrantAll(k, from, to, gs, n)
    decreases |gs| - n
  {
    if n < |gs| {
      GrantStops(k, from, to, gs, n + 1);
    }
  }
}
