/**
 What each IPC call answers and changes, in terms of the authority a task's
 handles give it: which endpoint each one names, and with which rights.
 */
module IpcLaws {
  import opened Ipc
  import opened IpcInvariant
  import IpcFifo

  datatype Authority = Authority(endpoint: nat, rights: set<Right>)

  ghost function Held(k: Kernel, t: nat, h: nat): Option<Authority>
    requires Shape(k) && t < |k.tasks|
  {
    match Resolve(k, t, h, {})
    case None => None
    case Some(s) => Some(Authority(k.tasks[t].caps[s].endpoint - 1, k.tasks[t].caps[s].rights))
  }

  /** A handle names slot `s` exactly when it spells the slot's number and generation and the slot holds a capability. */
  lemma ResolveExact(k: Kernel, t: nat, h: nat, rights: set<Right>, s: nat)
    requires Shape(k) && CapsValid(k) && t < |k.tasks| && s < CAPS
    ensures Resolve(k, t, h, rights) == Some(s) <==>
              && h == k.tasks[t].caps[s].generation * 256 + s + 1 && h < 0x1_0000_0000
              && k.tasks[t].caps[s].endpoint != 0 && rights <= k.tasks[t].caps[s].rights
  {
    if k.tasks[t].caps[s].endpoint != 0 {
      assert CapValid(k, k.tasks[t].caps[s]);
    }
  }

  /** Asking for rights is holding them. */
  lemma RightsAsked(k: Kernel, t: nat, h: nat, rights: set<Right>)
    requires Shape(k) && t < |k.tasks|
    ensures Resolve(k, t, h, rights).Some? <==> Held(k, t, h).Some? && rights <= Held(k, t, h).value.rights
    ensures Resolve(k, t, h, rights).Some? ==> Resolve(k, t, h, rights) == Resolve(k, t, h, {})
  {
  }

  ghost predicate SameSizes(k: Kernel, r: Kernel) {
    Shape(k) && Shape(r) && |r.tasks| == |k.tasks| && |r.endpoints| == |k.endpoints|
  }

  /** Task `t` has gained exactly the handle `h`, with authority `a`; nobody else gained or lost anything. */
  ghost predicate Gains(k: Kernel, r: Kernel, t: nat, h: nat, a: Authority) {
    && SameSizes(k, r) && t < |k.tasks| && Held(k, t, h) == None && Held(r, t, h) == Some(a)
    && forall u: nat, g: nat :: u < |k.tasks| && (u, g) != (t, h) ==> Held(r, u, g) == Held(k, u, g)
  }

  /** There is a free slot within the task's limit. */
  ghost predicate HasSlot(t: Task) {
    t.limit <= 32 && Used(t.caps) < t.limit && exists s :: 0 <= s < |t.caps| && t.caps[s].endpoint == 0 && t.caps[s].generation < 0x7fffff
  }

  lemma SlotExact(t: Task)
    ensures CapSlot(t).Some? <==> HasSlot(t)
  {
    hide Used, FirstFree;
    if HasSlot(t) {
      var s :| 0 <= s < |t.caps| && t.caps[s].endpoint == 0 && t.caps[s].generation < 0x7fffff;
      assert Free(t.caps[s]);
    }
  }

  lemma SetCapHeld(k: Kernel, t: nat, s: nat, c: Cap, u: nat, g: nat)
    requires Shape(k) && t < |k.tasks| && s < CAPS && u < |k.tasks| && (u != t || g % 256 != s + 1)
    ensures Held(SetCap(k, t, s, c), u, g) == Held(k, u, g)
  {
  }

  lemma SlotHeld(k: Kernel, t: nat, s: nat, g: nat)
    requires Shape(k) && t < |k.tasks| && s < CAPS && g % 256 == s + 1
    ensures var c := k.tasks[t].caps[s];
            Held(k, t, g) == if g < U32 && c.endpoint != 0 && c.endpoint <= |k.endpoints| && c.generation == g / 256
                                && k.endpoints[c.endpoint - 1].owner != 0 && c.epoch == k.endpoints[c.endpoint - 1].epoch
                             then Some(Authority(c.endpoint - 1, c.rights)) else None
  {
  }

  /** Installing a capability on a live endpoint returns the one new handle, which names exactly that. */
  lemma InstallExact(k: Kernel, t: nat, ep: nat, rights: set<Right>)
    requires Shape(k) && t < |k.tasks| && ep < |k.endpoints| && k.endpoints[ep].owner != 0
    ensures var (r, h) := Install(k, t, ep, rights);
            && (h.Some? <==> HasSlot(k.tasks[t])) && (h.None? ==> r == k)
            && (h.Some? ==>
                  && Gains(k, r, t, h.value, Authority(ep, rights)) && r.endpoints == k.endpoints
                  && exists s :: 0 <= s < 32 && k.tasks[t].caps[s].endpoint == 0 && h.value == (k.tasks[t].caps[s].generation + 1) * 256 + s + 1)
  {
    hide Held, HasSlot, CapSlot;
    SlotExact(k.tasks[t]);
    var (r, h) := Install(k, t, ep, rights);
    if h.Some? {
      var s := CapSlot(k.tasks[t]).value;
      InstallGains(k, t, ep, rights, s);
    }
  }

  lemma InstallGains(k: Kernel, t: nat, ep: nat, rights: set<Right>, s: nat)
    requires Shape(k) && t < |k.tasks| && ep < |k.endpoints| && k.endpoints[ep].owner != 0
    requires s < CAPS && Free(k.tasks[t].caps[s])
    ensures var generation := k.tasks[t].caps[s].generation + 1;
            var r := SetCap(k, t, s, Cap(ep + 1, k.endpoints[ep].epoch, rights, generation));
            Gains(k, r, t, generation * 256 + s + 1, Authority(ep, rights))
  {
    hide Held;
    var generation := k.tasks[t].caps[s].generation + 1;
    var c := Cap(ep + 1, k.endpoints[ep].epoch, rights, generation);
    var r, h := SetCap(k, t, s, c), generation * 256 + s + 1;
    assert h % 256 == s + 1 && h / 256 == generation;
    SlotHeld(k, t, s, h);
    SlotHeld(r, t, s, h);
    forall u: nat, g: nat | u < |k.tasks| && (u, g) != (t, h)
      ensures Held(r, u, g) == Held(k, u, g)
    {
      if u == t && g % 256 == s + 1 {
        SlotHeld(k, t, s, g);
        SlotHeld(r, t, s, g);
        assert g == g / 256 * 256 + g % 256;
      } else {
        SetCapHeld(k, t, s, c, u, g);
      }
    }
  }

  // ------------------------------------------------------ create and derive

  /** A creation succeeds exactly when there is a slot and a free endpoint; the caller owns it and holds every right. */
  lemma CreateExact(k: Kernel, t: nat)
    requires Inv(k) && Shape(k) && t < |k.tasks| && k.tasks[t].state.Ready?
    ensures var (r, v) := Create(k, t);
            && (v.Value? <==> HasSlot(k.tasks[t]) && exists i :: 0 <= i < |k.endpoints| && k.endpoints[i].owner == 0)
            && (!v.Value? ==> v == NoSpace && r == k)
            && (v.Value? ==> exists i: nat :: i < |k.endpoints| && k.endpoints[i].owner == 0 && Created(k, r, t, v.v, i))
  {
    hide Held, HasSlot, CapSlot, Core, FreeEndpoint, Gains;
    SlotExact(k.tasks[t]);
    var i := FreeEndpoint(k.endpoints);
    if Create(k, t).1.Value? || (HasSlot(k.tasks[t]) && i < |k.endpoints|) {
      CreateGains(k, t, i);
    }
  }

  ghost predicate Created(k: Kernel, r: Kernel, t: nat, h: nat, i: nat) {
    && t < |k.tasks| && i < |k.endpoints| == |r.endpoints| && Gains(k, r, t, h, Authority(i, {SEND, RECV, DELEGATE}))
    && r.endpoints[i].owner == k.tasks[t].pid && r.endpoints[i].count == 0
    && forall n :: 0 <= n < |k.endpoints| && n != i ==> r.endpoints[n] == k.endpoints[n]
  }

  lemma CreateGains(k: Kernel, t: nat, i: nat)
    requires Inv(k) && Shape(k) && t < |k.tasks| && k.tasks[t].state.Ready?
    requires i == FreeEndpoint(k.endpoints) < |k.endpoints| && CapSlot(k.tasks[t]).Some?
    ensures var (r, v) := Create(k, t); v.Value? && Created(k, r, t, v.v, i)
  {
    hide Held, HasSlot, CapSlot, Core, FreeEndpoint, Install;
    var e := k.endpoints[i].(owner := k.tasks[t].pid, epoch := (k.endpoints[i].epoch + 1) % U32, head := 0, count := 0);
    var made := k.(endpoints := k.endpoints[i := e]);
    ReadyPid(k, t);
    SlotExact(k.tasks[t]);
    InstallExact(made, t, i, {SEND, RECV, DELEGATE});
    forall u: nat, g: nat | u < |k.tasks|
      ensures Held(made, u, g) == Held(k, u, g)
    {
      FreshEndpoint(k, i, e, u, g);
    }
  }

  lemma ReadyPid(k: Kernel, t: nat)
    requires Inv(k) && t < |k.tasks| && Live(k.tasks[t])
    ensures k.tasks[t].pid != 0
  {
    hide CapsValid, AllReferenced, OwnersLive, WaitersOk, VacantClean, WithinLimits;
  }

  /** Nobody's handles name an endpoint that is not in use. */
  lemma FreshEndpoint(k: Kernel, i: nat, e: Endpoint, u: nat, g: nat)
    requires Inv(k) && Shape(k) && i < |k.endpoints| && k.endpoints[i].owner == 0 && RingOk(e) && u < |k.tasks|
    ensures Shape(k.(endpoints := k.endpoints[i := e])) && Held(k.(endpoints := k.endpoints[i := e]), u, g) == Held(k, u, g)
  {
    hide AllReferenced, OwnersLive, WaitersOk, VacantClean, PidsOk, WithinLimits;
    var s := g % 256 - 1;
    if 0 <= s < CAPS && k.tasks[u].caps[s].endpoint != 0 {
      assert CapValid(k, k.tasks[u].caps[s]);
    }
  }

  /** A derived handle names the same endpoint with exactly the rights asked for, which must be a part of those held. */
  lemma DeriveExact(k: Kernel, t: nat, h: nat, rights: set<Right>, extra: bool)
    requires Inv(k) && Shape(k) && t < |k.tasks|
    ensures var (r, v) := Derive(k, t, h, rights, extra);
            var a := Held(k, t, h);
            if a.None? || DELEGATE !in a.value.rights || extra || !(rights <= a.value.rights) then r == k && v == Denied
            else if !HasSlot(k.tasks[t]) then r == k && v == NoSpace
            else v.Value? && Gains(k, r, t, v.v, Authority(a.value.endpoint, rights)) && r.endpoints == k.endpoints
  {
    hide HasSlot, CapSlot, Core, Install, Gains;
    RightsAsked(k, t, h, {DELEGATE});
    if Held(k, t, h).Some? {
      HeldLive(k, t, h);
      InstallExact(k, t, Held(k, t, h).value.endpoint, rights);
    }
  }

  lemma HeldLive(k: Kernel, t: nat, h: nat)
    requires Shape(k) && t < |k.tasks| && Held(k, t, h).Some?
    ensures Held(k, t, h).value.endpoint < |k.endpoints| && k.endpoints[Held(k, t, h).value.endpoint].owner != 0
  {
  }

  // ------------------------------------------------------- close and revoke

  /** Handles on the ended endpoint are gone; all others name what they named. */
  lemma InvalidateHeld(k: Kernel, i: nat, u: nat, g: nat)
    requires Shape(k) && i < |k.endpoints| && u < |k.tasks|
    ensures Shape(Invalidate(k, i))
    ensures Held(Invalidate(k, i), u, g) == if Held(k, u, g).Some? && Held(k, u, g).value.endpoint == i then None else Held(k, u, g)
  {
    var s := g % 256 - 1;
    if 0 <= s < CAPS {
      SlotHeld(k, u, s, g);
      SlotHeld(Invalidate(k, i), u, s, g);
    }
  }

  /** Who was waiting on the ended endpoint is woken and told so. */
  lemma InvalidateWakes(k: Kernel, i: nat, j: nat)
    requires i < |k.endpoints| && j < |k.tasks|
    ensures var a, b := k.tasks[j], Invalidate(k, i).tasks[j];
            if a.state.Blocked? && a.wait == i + 1 then b.state.Ready? && b.wake == Revoked
            else b.state == a.state && b.wake == a.wake
    ensures Invalidate(k, i).endpoints[i].owner == 0
    ensures forall n :: 0 <= n < |k.endpoints| && n != i ==> Invalidate(k, i).endpoints[n] == k.endpoints[n]
  {
  }

  /** Another capability slot than `s` of task `t` names the endpoint. */
  ghost predicate OtherRef(k: Kernel, t: nat, s: nat, ep: nat) {
    exists u: nat, n: nat :: u < |k.tasks| && n < |k.tasks[u].caps| && (u, n) != (t, s) && k.tasks[u].caps[n].endpoint == ep + 1
  }

  lemma DroppedRef(k: Kernel, t: nat, s: nat)
    requires Shape(k) && t < |k.tasks| && s < CAPS && k.tasks[t].caps[s].endpoint != 0
    ensures var c := k.tasks[t].caps[s];
            Referenced(SetCap(k, t, s, c.(endpoint := 0)), c.endpoint) <==> OtherRef(k, t, s, c.endpoint - 1)
  {
    var c := k.tasks[t].caps[s];
    var d := SetCap(k, t, s, c.(endpoint := 0));
    if Referenced(d, c.endpoint) {
      var u: nat, n: nat :| u < |d.tasks| && n < |d.tasks[u].caps| && RefAt(d, u, n, c.endpoint);
      assert k.tasks[u].caps[n].endpoint == c.endpoint && (u, n) != (t, s);
    }
    if OtherRef(k, t, s, c.endpoint - 1) {
      var u: nat, n: nat :| u < |k.tasks| && n < |k.tasks[u].caps| && (u, n) != (t, s) && k.tasks[u].caps[n].endpoint == c.endpoint;
      assert RefAt(d, u, n, c.endpoint);
    }
  }

  /** A close takes away that handle and no other; the endpoint ends exactly with its last capability. */
  lemma CloseExact(k: Kernel, t: nat, h: nat)
    requires Inv(k) && Shape(k) && t < |k.tasks|
    ensures var (r, v) := Close(k, t, h);
            var s := Resolve(k, t, h, {});
            if s.None? then r == k && v == Stale
            else
              var ep := k.tasks[t].caps[s.value].endpoint - 1;
              && v == Value(0) && SameSizes(k, r) && Held(r, t, h) == None
              && (forall u: nat, g: nat :: u < |k.tasks| && (u, g) != (t, h) ==> Held(r, u, g) == Held(k, u, g))
              && (if OtherRef(k, t, s.value, ep) then r.endpoints == k.endpoints else r.endpoints[ep].owner == 0)
              && forall n :: 0 <= n < |k.endpoints| && n != ep ==> r.endpoints[n] == k.endpoints[n]
  {
    hide Core, Resolve, CloseCap, Held, OtherRef;
    var s := Resolve(k, t, h, {});
    if s.Some? {
      CloseCapExact(k, t, h, s.value);
    }
  }

  lemma CloseCapExact(k: Kernel, t: nat, h: nat, s: nat)
    requires Inv(k) && Shape(k) && t < |k.tasks| && s < CAPS && Resolve(k, t, h, {}) == Some(s)
    ensures var r, ep := CloseCap(k, t, s), k.tasks[t].caps[s].endpoint - 1;
            && SameSizes(k, r) && Held(r, t, h) == None
            && (forall u: nat, g: nat :: u < |k.tasks| && (u, g) != (t, h) ==> Held(r, u, g) == Held(k, u, g))
            && (if OtherRef(k, t, s, ep) then r.endpoints == k.endpoints else r.endpoints[ep].owner == 0)
            && forall n :: 0 <= n < |k.endpoints| && n != ep ==> r.endpoints[n] == k.endpoints[n]
  {
    hide Core, Held, Resolve, OtherRef, Referenced, Invalidate;
    var c := k.tasks[t].caps[s];
    var d := SetCap(k, t, s, c.(endpoint := 0));
    DroppedRef(k, t, s);
    InvCaps(k);
    forall u: nat, g: nat | u < |k.tasks|
      ensures Held(d, u, g) == if (u, g) == (t, h) then None else Held(k, u, g)
    {
      DroppedHeld(k, t, s, h, u, g);
    }
    if !OtherRef(k, t, s, c.endpoint - 1) {
      EndsAlone(k, d, t, s, h);
    }
  }

  lemma InvCaps(k: Kernel)
    requires Inv(k)
    ensures Shape(k) && CapsValid(k)
  {
    hide CapsValid, AllReferenced, OwnersLive, WaitersOk, VacantClean, PidsOk, WithinLimits;
  }

  lemma DroppedHeld(k: Kernel, t: nat, s: nat, h: nat, u: nat, g: nat)
    requires Shape(k) && CapsValid(k) && t < |k.tasks| && s < CAPS && Resolve(k, t, h, {}) == Some(s) && u < |k.tasks|
    ensures var d := SetCap(k, t, s, k.tasks[t].caps[s].(endpoint := 0));
            Held(d, u, g) == if (u, g) == (t, h) then None else Held(k, u, g)
  {
    hide CapsValid, Held, Resolve;
    var d := SetCap(k, t, s, k.tasks[t].caps[s].(endpoint := 0));
    ResolveExact(k, t, h, {}, s);
    assert h % 256 == s + 1 && h / 256 == k.tasks[t].caps[s].generation;
    if u == t && g % 256 == s + 1 {
      SlotHeld(k, t, s, g);
      SlotHeld(d, t, s, g);
      assert g == g / 256 * 256 + g % 256;
    } else {
      SetCapHeld(k, t, s, k.tasks[t].caps[s].(endpoint := 0), u, g);
    }
  }

  /** With the last capability gone nobody held anything on the endpoint that now ends. */
  lemma EndsAlone(k: Kernel, d: Kernel, t: nat, s: nat, h: nat)
    requires Inv(k) && Shape(k) && t < |k.tasks| && s < CAPS && 1 <= k.tasks[t].caps[s].endpoint <= |k.endpoints|
    requires d == SetCap(k, t, s, k.tasks[t].caps[s].(endpoint := 0)) && !OtherRef(k, t, s, k.tasks[t].caps[s].endpoint - 1)
    ensures var r, ep := Invalidate(d, k.tasks[t].caps[s].endpoint - 1), k.tasks[t].caps[s].endpoint - 1;
            && SameSizes(d, r) && r.endpoints[ep].owner == 0
            && (forall u: nat, g: nat :: u < |k.tasks| ==> Held(r, u, g) == Held(d, u, g))
            && forall n :: 0 <= n < |k.endpoints| && n != ep ==> r.endpoints[n] == k.endpoints[n]
  {
    hide Core, Held;
    var ep := k.tasks[t].caps[s].endpoint - 1;
    forall u: nat, g: nat | u < |k.tasks|
      ensures Held(Invalidate(d, ep), u, g) == Held(d, u, g)
    {
      InvalidateHeld(d, ep, u, g);
      HeldSlot(d, u, g);
    }
    InvalidateShape(d, ep);
  }

  lemma HeldSlot(k: Kernel, u: nat, g: nat)
    requires Shape(k) && u < |k.tasks|
    ensures Held(k, u, g).Some? ==> exists n: nat :: n < |k.tasks[u].caps| && k.tasks[u].caps[n].endpoint == Held(k, u, g).value.endpoint + 1
  {
    if Held(k, u, g).Some? {
      var n := Resolve(k, u, g, {}).value;
      assert k.tasks[u].caps[n].endpoint == Held(k, u, g).value.endpoint + 1;
    }
  }

  /** Only the owner, by a delegable handle, revokes; then nobody holds the endpoint and its waiters are told. */
  lemma RevokeExact(k: Kernel, t: nat, h: nat)
    requires Inv(k) && Shape(k) && t < |k.tasks|
    ensures var (r, v) := Revoke(k, t, h);
            var a := Held(k, t, h);
            if a.None? || DELEGATE !in a.value.rights || k.endpoints[a.value.endpoint].owner != k.tasks[t].pid then r == k && v == Denied
            else
              && v == Value(0) && SameSizes(k, r) && r.endpoints[a.value.endpoint].owner == 0
              && (forall u: nat, g: nat :: u < |k.tasks| ==>
                    Held(r, u, g) == if Held(k, u, g).Some? && Held(k, u, g).value.endpoint == a.value.endpoint then None else Held(k, u, g))
              && (forall j :: 0 <= j < |k.tasks| && k.tasks[j].state.Blocked? && k.tasks[j].wait == a.value.endpoint + 1 ==>
                    r.tasks[j].state.Ready? && r.tasks[j].wake == Revoked)
  {
    hide Core, Invalidate;
    RightsAsked(k, t, h, {DELEGATE});
    var a := Held(k, t, h);
    if a.Some? && DELEGATE in a.value.rights && k.endpoints[a.value.endpoint].owner == k.tasks[t].pid {
      var i := a.value.endpoint;
      InvalidateShape(k, i);
      InvalidateFrame(k, i);
      forall u: nat, g: nat | u < |k.tasks|
        ensures Held(Invalidate(k, i), u, g) == if Held(k, u, g).Some? && Held(k, u, g).value.endpoint == i then None else Held(k, u, g)
      {
        InvalidateHeld(k, i, u, g);
      }
      forall j: nat | j < |k.tasks| && k.tasks[j].state.Blocked? && k.tasks[j].wait == i + 1
        ensures Invalidate(k, i).tasks[j].state.Ready? && Invalidate(k, i).tasks[j].wake == Revoked
      {
        InvalidateWakes(k, i, j);
      }
    }
  }

  // ------------------------------------------------------- send and receive

  /** Some task is blocked on the endpoint. */
  ghost predicate Awaited(k: Kernel, ep: nat) {
    exists j :: 0 <= j < |k.tasks| && k.tasks[j].state.Blocked? && k.tasks[j].wait == ep + 1
  }

  /** A well-formed, timely send by a holder of SEND goes to a waiter, or behind the queue, or finds it full. */
  lemma SendExact(k: Kernel, t: nat, h: nat, m: Message, readable: bool, wellFormed: bool, late: bool)
    requires Inv(k) && Shape(k) && t < |k.tasks|
    ensures var (r, v) := Send(k, t, h, m, readable, wellFormed, late);
            var a := Held(k, t, h);
            if a.None? || SEND !in a.value.rights then r == k && v == Stale
            else if !readable then r == k && v == Denied
            else if !wellFormed then r == k && v == Invalid
            else if late then r == k && v == Timeout
            else
              var ep := a.value.endpoint;
              if Awaited(k, ep) then v == Value(0) && HandedOver(k, r, ep, m.(sender := k.tasks[t].pid))
              else if k.endpoints[ep].count == 8 then r == k && v == WouldBlock
              else v == Value(0) && Queued(k, r, ep, m.(sender := k.tasks[t].pid))
  {
    hide Core, FirstWaiter, Enqueue;
    RightsAsked(k, t, h, {SEND});
    var a := Held(k, t, h);
    if a.Some? && SEND in a.value.rights && !Awaited(k, a.value.endpoint) && k.endpoints[a.value.endpoint].count < 8 {
      IpcFifo.EnqueueRing(k.endpoints[a.value.endpoint], m.(sender := k.tasks[t].pid));
      EnqueueKeeps(k.endpoints[a.value.endpoint], m.(sender := k.tasks[t].pid));
    }
  }

  lemma EnqueueKeeps(e: Endpoint, m: Message)
    requires RingOk(e) && e.count < RING
    ensures Enqueue(e, m).owner == e.owner && Enqueue(e, m).epoch == e.epoch
  {
  }

  /** One task that was blocked on the endpoint is ready with the message; nothing else changed. */
  ghost predicate HandedOver(k: Kernel, r: Kernel, ep: nat, m: Message) {
    && r.endpoints == k.endpoints
    && exists j :: 0 <= j < |k.tasks| && k.tasks[j].state.Blocked? && k.tasks[j].wait == ep + 1
                   && r.tasks == k.tasks[j := k.tasks[j].(state := Ready, wake := Got(m.sender, m))]
  }

  /** The message is behind the queue of a live endpoint; nothing else changed. */
  ghost predicate Queued(k: Kernel, r: Kernel, ep: nat, m: Message) {
    && r.tasks == k.tasks && ep < |k.endpoints| == |r.endpoints|
    && RingOk(k.endpoints[ep]) && RingOk(r.endpoints[ep]) && Ring(r.endpoints[ep]) == Ring(k.endpoints[ep]) + [m]
    && r.endpoints[ep].owner == k.endpoints[ep].owner && r.endpoints[ep].epoch == k.endpoints[ep].epoch
    && forall n :: 0 <= n < |k.endpoints| && n != ep ==> r.endpoints[n] == k.endpoints[n]
  }

  /** A receive by a holder of RECV takes the oldest message; without one it times out at once or blocks until the deadline. */
  lemma ReceiveExact(k: Kernel, t: nat, h: nat, writable: bool, deadline: nat, now: nat)
    requires Inv(k) && Shape(k) && t < |k.tasks|
    ensures var (r, v) := Receive(k, t, h, writable, deadline, now);
            var a := Held(k, t, h);
            if a.None? || RECV !in a.value.rights then r == k && v == Stale
            else if !writable then r == k && v == Denied
            else
              var ep := a.value.endpoint;
              var q := Ring(k.endpoints[ep]);
              if q != [] then v == Value(q[0].sender) && Took(k, r, t, ep)
              else if deadline != 0 && now >= deadline then r == k && v == Timeout
              else v == Value(0) && r == k.(tasks := k.tasks[t := k.tasks[t].(state := Blocked, wait := ep + 1, deadline := deadline, wake := Nothing)])
  {
    hide Core, Dequeue, Ring;
    RightsAsked(k, t, h, {RECV});
    var a := Held(k, t, h);
    if a.Some? && RECV in a.value.rights {
      var e := k.endpoints[a.value.endpoint];
      if e.count > 0 {
        IpcFifo.DequeueRing(e);
        DequeueKeeps(e);
      }
    }
  }

  lemma DequeueKeeps(e: Endpoint)
    requires RingOk(e) && e.count > 0
    ensures Dequeue(e).owner == e.owner && Dequeue(e).epoch == e.epoch
  {
  }

  /** The receiver has the oldest message, which left the queue; nothing else changed. */
  ghost predicate Took(k: Kernel, r: Kernel, t: nat, ep: nat) {
    && t < |k.tasks| && ep < |k.endpoints| == |r.endpoints| && RingOk(k.endpoints[ep]) && RingOk(r.endpoints[ep])
    && Ring(k.endpoints[ep]) != [] && Ring(r.endpoints[ep]) == Ring(k.endpoints[ep])[1..]
    && r.endpoints[ep].owner == k.endpoints[ep].owner && r.endpoints[ep].epoch == k.endpoints[ep].epoch
    && (forall n :: 0 <= n < |k.endpoints| && n != ep ==> r.endpoints[n] == k.endpoints[n])
    && var m := Ring(k.endpoints[ep])[0]; r.tasks == k.tasks[t := k.tasks[t].(wake := Got(m.sender, m))]
  }

  /** Exactly the tasks blocked past a deadline of their own wake, and are told that they timed out. */
  lemma DeadlinesExact(k: Kernel, now: nat)
    ensures var r := Deadlines(k, now);
            && r.endpoints == k.endpoints && r.nextPid == k.nextPid && |r.tasks| == |k.tasks|
            && forall j :: 0 <= j < |k.tasks| ==>
                 if k.tasks[j].state.Blocked? && 0 < k.tasks[j].deadline <= now
                 then r.tasks[j] == k.tasks[j].(state := Ready, wake := TimedOut) else r.tasks[j] == k.tasks[j]
  {
  }

  // ----------------------------------------------------------------- cancel

  lemma {:induction false} KeptIs(q: seq<Message>, pid: nat, request: nat, m: Message)
    ensures multiset(Kept(q, pid, request))[m] == if m.sender == pid && m.request == request then 0 else multiset(q)[m]
  {
    if q != [] {
      var front, last := q[..|q| - 1], q[|q| - 1];
      KeptIs(front, pid, request, m);
      assert q == front + [last];
    }
  }

  /** A cancel withdraws exactly the caller's own queued messages with that request, and says how many. */
  lemma CancelExact(k: Kernel, t: nat, h: nat, request: nat, reserved: bool)
    requires Inv(k) && Shape(k) && t < |k.tasks|
    ensures var (r, v) := Cancel(k, t, h, request, reserved);
            var a := Held(k, t, h);
            if a.None? || SEND !in a.value.rights then r == k && v == Stale
            else if reserved then r == k && v == Invalid
            else
              var ep := a.value.endpoint;
              && r.tasks == k.tasks && |r.endpoints| == |k.endpoints| && RingOk(r.endpoints[ep]) && v.Value?
              && (forall n :: 0 <= n < |k.endpoints| && n != ep ==> r.endpoints[n] == k.endpoints[n])
              && v.v + |Ring(r.endpoints[ep])| == |Ring(k.endpoints[ep])|
              && forall m :: multiset(Ring(r.endpoints[ep]))[m] ==
                   if m.sender == k.tasks[t].pid && m.request == request then 0 else multiset(Ring(k.endpoints[ep]))[m]
  {
    hide Core, Compacted, Ring, Kept;
    RightsAsked(k, t, h, {SEND});
    var a := Held(k, t, h);
    if a.Some? && SEND in a.value.rights {
      var e, pid := k.endpoints[a.value.endpoint], k.tasks[t].pid;
      IpcFifo.CompactedRing(e, pid, request);
      forall m
        ensures multiset(Kept(Ring(e), pid, request))[m] == if m.sender == pid && m.request == request then 0 else multiset(Ring(e))[m]
      {
        KeptIs(Ring(e), pid, request, m);
      }
    }
  }

  // ------------------------------------------------------------------ death

  lemma {:induction false} EndOwnedHeld(k: Kernel, pid: nat, n: nat, u: nat, g: nat)
    requires Shape(k) && n <= |k.endpoints| && u < |k.tasks| && pid != 0
    ensures Shape(EndOwned(k, pid, n))
    ensures forall i :: 0 <= i < |k.endpoints| ==>
              EndOwned(k, pid, n).endpoints[i].owner == if i < n && k.endpoints[i].owner == pid then 0 else k.endpoints[i].owner
    ensures Held(EndOwned(k, pid, n), u, g) ==
              if Held(k, u, g).Some? && Held(k, u, g).value.endpoint < n && k.endpoints[Held(k, u, g).value.endpoint].owner == pid
              then None else Held(k, u, g)
    decreases n
  {
    hide Held, Invalidate;
    EndOwnedShape(k, pid, n);
    if Held(k, u, g).Some? {
      HeldLive(k, u, g);
    }
    if n > 0 {
      EndOwnedHeld(k, pid, n - 1, u, g);
      var b := EndOwned(k, pid, n - 1);
      InvalidateHeld(b, n - 1, u, g);
      InvalidateFrame(b, n - 1);
    }
  }

  lemma {:induction false} DropCapsHeld(k: Kernel, t: nat, n: nat, u: nat, g: nat)
    requires Core(k, t, -1) && Shape(k) && t < |k.tasks| && n <= CAPS && u < |k.tasks| && u != t
    ensures Held(DropCaps(k, t, n), u, g) == Held(k, u, g)
    decreases n
  {
    hide Core, Held, CloseCap;
    if n > 0 {
      DropCapsHeld(k, t, n - 1, u, g);
      DropCapsKeeps(k, t, n - 1);
      var b := DropCaps(k, t, n - 1);
      if 1 <= b.tasks[t].caps[n - 1].endpoint <= |b.endpoints| {
        DropOneHeld(b, t, n - 1, u, g);
      }
    }
  }

  lemma DropOneHeld(k: Kernel, t: nat, s: nat, u: nat, g: nat)
    requires Shape(k) && t < |k.tasks| && s < CAPS && u < |k.tasks| && u != t && 1 <= k.tasks[t].caps[s].endpoint <= |k.endpoints|
    ensures Shape(CloseCap(k, t, s)) && Held(CloseCap(k, t, s), u, g) == Held(k, u, g)
  {
    hide Held, Referenced, Invalidate, OtherRef;
    var c := k.tasks[t].caps[s];
    var d := SetCap(k, t, s, c.(endpoint := 0));
    SetCapHeld(k, t, s, c.(endpoint := 0), u, g);
    if !Referenced(d, c.endpoint) {
      InvalidateShape(d, c.endpoint - 1);
      InvalidateHeld(d, c.endpoint - 1, u, g);
      HeldSlot(d, u, g);
      Unreferenced(d, u, c.endpoint);
    }
  }

  lemma Unreferenced(k: Kernel, u: nat, ep: nat)
    requires u < |k.tasks| && !Referenced(k, ep)
    ensures forall n: nat :: n < |k.tasks[u].caps| ==> k.tasks[u].caps[n].endpoint != ep
  {
    forall n: nat | n < |k.tasks[u].caps|
      ensures k.tasks[u].caps[n].endpoint != ep
    {
      assert !RefAt(k, u, n, ep);
    }
  }

  /** What a handle gives once every endpoint of process `pid` has ended. */
  ghost function Remaining(k: Kernel, u: nat, g: nat, pid: nat): Option<Authority>
    requires Shape(k) && u < |k.tasks|
  {
    if Held(k, u, g).Some? && k.endpoints[Held(k, u, g).value.endpoint].owner == pid then None else Held(k, u, g)
  }

  /** A death ends the task's endpoints for everybody and takes all it held; what others hold elsewhere stays. */
  lemma DeathExact(k: Kernel, t: nat)
    requires Inv(k) && Shape(k) && t < |k.tasks| && Live(k.tasks[t])
    ensures var r := TaskDead(k, t);
            && SameSizes(k, r) && r.tasks[t].state.Dead? && NoCaps(r.tasks[t])
            && (forall i :: 0 <= i < |k.endpoints| && k.endpoints[i].owner == k.tasks[t].pid ==> r.endpoints[i].owner == 0)
            && forall u: nat, g: nat :: u < |k.tasks| && u != t ==>
                 Held(r, u, g) == Remaining(k, u, g, k.tasks[t].pid)
  {
    hide Core, EndOwned, DropCaps, Held, Cleanup, Remaining;
    ReadyPid(k, t);
    Exempt(k, t);
    DeadKeeps(k, t);
    InvShape(TaskDead(k, t));
    DeadClean(k, t);
    forall u: nat, g: nat | u < |k.tasks| && u != t
      ensures Held(TaskDead(k, t), u, g) == Remaining(k, u, g, k.tasks[t].pid)
    {
      DeathHeld(k, t, u, g);
    }
  }

  lemma InvShape(k: Kernel)
    requires Inv(k)
    ensures Shape(k)
  {
  }

  lemma DeadClean(k: Kernel, t: nat)
    requires Core(k, t, -1) && Shape(k) && t < |k.tasks| && k.tasks[t].pid != 0
    ensures var r := TaskDead(k, t);
            && |r.tasks| == |k.tasks| && |r.endpoints| == |k.endpoints| && r.tasks[t].state.Dead? && NoCaps(r.tasks[t])
            && forall i :: 0 <= i < |k.endpoints| && k.endpoints[i].owner == k.tasks[t].pid ==> r.endpoints[i].owner == 0
  {
    hide Core, EndOwned, DropCaps, Held, NoCaps;
    var pid := k.tasks[t].pid;
    DeadKeeps(k, t);
    VacantHasNone(TaskDead(k, t), t);
    EndOwnedKeeps(k, pid, |k.endpoints|, t);
    EndOwnedHeld(k, pid, |k.endpoints|, t, 0);
    DropCapsKeeps(EndOwned(k, pid, |k.endpoints|), t, CAPS);
  }

  lemma VacantHasNone(k: Kernel, t: nat)
    requires Inv(k) && t < |k.tasks| && Vacant(k.tasks[t])
    ensures NoCaps(k.tasks[t])
  {
    hide CapsValid, AllReferenced, OwnersLive, WaitersOk, PidsOk, WithinLimits;
  }

  lemma DeathHeld(k: Kernel, t: nat, u: nat, g: nat)
    requires Core(k, t, -1) && Shape(k) && t < |k.tasks| && k.tasks[t].pid != 0 && u < |k.tasks| && u != t && Shape(TaskDead(k, t))
    requires |TaskDead(k, t).tasks| == |k.tasks|
    ensures Held(TaskDead(k, t), u, g) == Remaining(k, u, g, k.tasks[t].pid)
  {
    hide Core, EndOwned, DropCaps, Held;
    var pid := k.tasks[t].pid;
    if Held(k, u, g).Some? {
      HeldLive(k, u, g);
    }
    EndOwnedHeld(k, pid, |k.endpoints|, u, g);
    EndOwnedKeeps(k, pid, |k.endpoints|, t);
    DropCapsHeld(EndOwned(k, pid, |k.endpoints|), t, CAPS, u, g);
    SameHeld(Cleanup(k, t), TaskDead(k, t), u, g);
  }

  lemma SameHeld(k: Kernel, r: Kernel, u: nat, g: nat)
    requires SameSizes(k, r) && u < |k.tasks| && r.tasks[u].caps == k.tasks[u].caps && r.endpoints == k.endpoints
    ensures Held(r, u, g) == Held(k, u, g)
  {
  }

  // ------------------------------------------------------------------ birth

  /** The parent may hand this out. */
  ghost predicate Grantable(k: Kernel, parent: nat, g: Grant)
    requires Shape(k) && parent < |k.tasks|
  {
    var a := Held(k, parent, g.handle);
    !g.extra && a.Some? && DELEGATE in a.value.rights && g.rights <= a.value.rights
  }

  /** Slot `n` of the new task holds the `n`-th grant; the slots behind are empty. */
  ghost predicate Granted(k: Kernel, r: Kernel, parent: nat, j: nat, gs: seq<Grant>, n: nat)
    requires Shape(k) && Shape(r) && parent < |k.tasks| == |r.tasks| && j < |r.tasks| && n <= |gs| && n <= CAPS
  {
    && r.endpoints == k.endpoints && (forall u :: 0 <= u < |k.tasks| && u != j ==> r.tasks[u] == k.tasks[u])
    && (forall s :: n <= s < CAPS ==> r.tasks[j].caps[s].endpoint == 0)
    && forall s :: 0 <= s < n ==>
         && Held(k, parent, gs[s].handle).Some?
         && r.tasks[j].caps[s].endpoint == Held(k, parent, gs[s].handle).value.endpoint + 1 && r.tasks[j].caps[s].rights == gs[s].rights
  }

  lemma {:induction false} UsedPrefix(caps: seq<Cap>, n: nat)
    requires n <= |caps| && (forall s :: 0 <= s < n ==> caps[s].endpoint != 0) && forall s :: n <= s < |caps| ==> caps[s].endpoint == 0
    ensures Used(caps) == n
  {
    if caps != [] {
      UsedPrefix(caps[1..], if n == 0 then 0 else n - 1);
    }
  }

  lemma GrantNext(k: Kernel, b: Kernel, parent: nat, j: nat, gs: seq<Grant>, n: nat)
    requires Shape(k) && Shape(b) && parent < |k.tasks| == |b.tasks| && j < |k.tasks| && j != parent && n < |gs| && n < CAPS
    requires Granted(k, b, parent, j, gs, n) && Grantable(k, parent, gs[n])
    requires b.tasks[j].limit == CAPS && b.tasks[j].caps[n].generation < GENERATION_MAX
    ensures var (r, ok) := GrantOne(b, parent, j, gs[n]);
            && ok && Shape(r) && |r.tasks| == |k.tasks| && Granted(k, r, parent, j, gs, n + 1) && r.tasks[j].limit == CAPS
            && r.nextPid == b.nextPid && r.tasks[j].pid == b.tasks[j].pid
            && forall s :: n < s < CAPS ==> r.tasks[j].caps[s] == b.tasks[j].caps[s]
  {
    hide Used, FirstFree, Held;
    SameHeld(k, b, parent, gs[n].handle);
    RightsAsked(b, parent, gs[n].handle, {DELEGATE});
    UsedPrefix(b.tasks[j].caps, n);
    assert Free(b.tasks[j].caps[n]);
    HeldIs(b, parent, gs[n].handle);
  }

  lemma HeldIs(k: Kernel, t: nat, h: nat)
    requires Shape(k) && t < |k.tasks|
    ensures Held(k, t, h).Some? == Resolve(k, t, h, {}).Some?
    ensures Held(k, t, h).Some? ==>
              Held(k, t, h).value == Authority(k.tasks[t].caps[Resolve(k, t, h, {}).value].endpoint - 1, k.tasks[t].caps[Resolve(k, t, h, {}).value].rights)
  {
  }

  lemma {:induction false} GrantsAll(k: Kernel, parent: nat, j: nat, gs: seq<Grant>, n: nat)
    requires Shape(k) && parent < |k.tasks| && j < |k.tasks| && j != parent && n <= |gs| && n <= CAPS
    requires k.tasks[j].limit == CAPS && forall s :: 0 <= s < CAPS ==> k.tasks[j].caps[s].endpoint == 0 && k.tasks[j].caps[s].generation < GENERATION_MAX
    requires forall s :: 0 <= s < n ==> Grantable(k, parent, gs[s])
    ensures var (r, ok) := GrantAll(k, parent, j, gs, n);
            && ok && Granted(k, r, parent, j, gs, n) && r.tasks[j].limit == CAPS && r.nextPid == k.nextPid && r.tasks[j].pid == k.tasks[j].pid
            && forall s :: n <= s < CAPS ==> r.tasks[j].caps[s] == k.tasks[j].caps[s]
    decreases n
  {
    hide GrantOne, Held, Grantable;
    if n > 0 {
      GrantsAll(k, parent, j, gs, n - 1);
      GrantNext(k, GrantAll(k, parent, j, gs, n - 1).0, parent, j, gs, n - 1);
    }
  }

  /** A spawn with room and grantable handles starts a task that holds exactly what it was granted. */
  lemma SpawnExact(k: Kernel, parent: nat, gs: seq<Grant>)
    requires Inv(k) && Shape(k) && parent < |k.tasks| && k.tasks[parent].state.Ready? && |gs| <= CAPS && 0 < k.nextPid <= PID_MAX
    requires FirstVacant(k.tasks) < |k.tasks|
    requires forall s :: 0 <= s < CAPS ==> k.tasks[FirstVacant(k.tasks)].caps[s].generation < GENERATION_MAX
    requires forall n :: 0 <= n < |gs| ==> Grantable(k, parent, gs[n])
    ensures var (r, v) := Spawn(k, parent, gs, false);
            var j := FirstVacant(k.tasks);
            && v == Value(k.nextPid) && SameSizes(k, r) && r.nextPid == k.nextPid + 1
            && r.tasks[j].state.Ready? && r.tasks[j].pid == k.nextPid && Granted(k, r, parent, j, gs, |gs|)
  {
    hide Core, GrantAll, Held, FirstVacant, Grantable;
    var j := FirstVacant(k.tasks);
    var b := Born(k, j);
    forall n | 0 <= n < |gs|
      ensures Grantable(b, parent, gs[n]) && Held(b, parent, gs[n].handle) == Held(k, parent, gs[n].handle)
    {
      SameHeld(k, b, parent, gs[n].handle);
      GrantableSame(k, b, parent, gs[n]);
    }
    GrantsAll(b, parent, j, gs, |gs|);
  }

  lemma GrantableSame(k: Kernel, r: Kernel, parent: nat, g: Grant)
    requires SameSizes(k, r) && parent < |k.tasks| && Held(r, parent, g.handle) == Held(k, parent, g.handle) && Grantable(k, parent, g)
    ensures Grantable(r, parent, g)
  {
  }
}
