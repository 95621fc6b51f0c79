/**
 Capability IPC: generation-stamped handles, endpoints with epochs, bounded ring
 queues and blocked receivers. Each operation is a function of the whole task
 and endpoint tables, whose sizes are arbitrary.
 */
module Ipc {

  const CAPS := 32
  const RING := 8
  const GENERATION_MAX := 0x7fffff
  const U32 := 0x1_0000_0000
  const PID_MAX := 0x7fff_ffff

  datatype Option<T> = None | Some(value: T)
  datatype Right = SEND | RECV | DELEGATE
  datatype Message = Message(sender: nat, request: nat, body: seq<nat>)

  /** `endpoint` is an index plus one; zero marks an empty slot. */
  datatype Cap = Cap(endpoint: nat, epoch: nat, rights: set<Right>, generation: nat)

  datatype State = Empty | Ready | Blocked | Dead
  datatype Wake = Nothing | Got(from: nat, message: Message) | Revoked | TimedOut

  datatype Task = Task(pid: nat, state: State, wait: nat, deadline: nat, wake: Wake, caps: seq<Cap>, limit: nat)
  datatype Endpoint = Endpoint(owner: nat, epoch: nat, head: nat, count: nat, queue: seq<Message>)
  datatype Kernel = Kernel(tasks: seq<Task>, endpoints: seq<Endpoint>, nextPid: nat)

  predicate Live(t: Task) { t.state.Ready? || t.state.Blocked? }

  /** Sizes and ranges of the tables. */
  predicate Shape(k: Kernel) {
    && (forall j :: 0 <= j < |k.tasks| ==> |k.tasks[j].caps| == CAPS)
    && (forall i :: 0 <= i < |k.endpoints| ==> RingOk(k.endpoints[i]))
  }

  predicate RingOk(e: Endpoint) { |e.queue| == RING && e.head < RING && e.count <= RING }

  // ------------------------------------------------------------ capabilities

  function Used(caps: seq<Cap>): (n: nat)
    ensures n <= |caps|
  {
    if caps == [] then 0 else (if caps[0].endpoint != 0 then 1 else 0) + Used(caps[1..])
  }

  predicate Free(c: Cap) { c.endpoint == 0 && c.generation < GENERATION_MAX }

  function FirstFree(caps: seq<Cap>): (i: nat)
    ensures i <= |caps| && (i < |caps| ==> Free(caps[i]))
    ensures forall n :: 0 <= n < i ==> !Free(caps[n])
  {
    if caps == [] || Free(caps[0]) then 0 else 1 + FirstFree(caps[1..])
  }

  function CapSlot(t: Task): (slot: Option<nat>)
    ensures slot.Some? ==> slot.value < |t.caps| && Free(t.caps[slot.value]) && Used(t.caps) < t.limit <= CAPS
  {
    if t.limit > CAPS || Used(t.caps) >= t.limit || FirstFree(t.caps) == |t.caps| then None
    else Some(FirstFree(t.caps))
  }

  function Handle(generation: nat, slot: nat): nat { generation * 256 + slot + 1 }

  predicate Names(c: Cap, handle: nat, slot: nat) {
    handle < U32 && handle % 256 == slot + 1 && slot < CAPS && c.generation == handle / 256 && c.endpoint != 0
  }

  /** The slot a handle names, if it is current and carries the rights asked for. */
  function Resolve(k: Kernel, t: nat, handle: nat, rights: set<Right>): (slot: Option<nat>)
    requires Shape(k) && t < |k.tasks|
    ensures slot.Some? ==>
              && slot.value < CAPS && Names(k.tasks[t].caps[slot.value], handle, slot.value)
              && rights <= k.tasks[t].caps[slot.value].rights
              && 1 <= k.tasks[t].caps[slot.value].endpoint <= |k.endpoints|
  {
    var i := handle % 256;
    if handle >= U32 || i == 0 || i > CAPS then None
    else
      var c := k.tasks[t].caps[i - 1];
      if c.endpoint == 0 || c.endpoint > |k.endpoints| || c.generation != handle / 256 || !(rights <= c.rights) then None
      else
        var e := k.endpoints[c.endpoint - 1];
        if e.owner == 0 || c.epoch != e.epoch then None else Some(i - 1)
  }

  function SetCap(k: Kernel, t: nat, slot: nat, c: Cap): Kernel
    requires Shape(k) && t < |k.tasks| && slot < CAPS
  {
    k.(tasks := k.tasks[t := k.tasks[t].(caps := k.tasks[t].caps[slot := c])])
  }

  /** Installs a capability in the first free slot, stamping a new generation. */
  function Install(k: Kernel, t: nat, ep: nat, rights: set<Right>): (Kernel, Option<nat>)
    requires Shape(k) && t < |k.tasks| && ep < |k.endpoints|
  {
    match CapSlot(k.tasks[t])
    case None => (k, None)
    case Some(slot) =>
      var generation := k.tasks[t].caps[slot].generation + 1;
      (SetCap(k, t, slot, Cap(ep + 1, k.endpoints[ep].epoch, rights, generation)), Some(Handle(generation, slot)))
  }

  function Detached(t: Task, ep: nat): Task {
    var awake := if t.state.Blocked? && t.wait == ep then t.(state := Ready, wake := Revoked) else t;
    awake.(caps := Cleared(t.caps, ep))
  }

  function Cleared(caps: seq<Cap>, ep: nat): (r: seq<Cap>)
    ensures |r| == |caps|
    ensures forall n :: 0 <= n < |caps| ==> r[n] == if caps[n].endpoint == ep then caps[n].(endpoint := 0) else caps[n]
  {
    seq(|caps|, n requires 0 <= n < |caps| => if caps[n].endpoint == ep then caps[n].(endpoint := 0) else caps[n])
  }

  function AllDetached(tasks: seq<Task>, ep: nat): (r: seq<Task>)
    ensures |r| == |tasks| && forall j :: 0 <= j < |tasks| ==> r[j] == Detached(tasks[j], ep)
  {
    seq(|tasks|, j requires 0 <= j < |tasks| => Detached(tasks[j], ep))
  }

  /** Ends one endpoint: wakes its waiters and drops every capability to it. */
  function Invalidate(k: Kernel, i: nat): Kernel
    requires i < |k.endpoints|
  {
    var e := k.endpoints[i];
    k.(endpoints := k.endpoints[i := e.(owner := 0, count := 0, epoch := (e.epoch + 1) % U32)],
       tasks := AllDetached(k.tasks, i + 1))
  }

  predicate RefAt(k: Kernel, j: nat, s: nat, ep: nat) {
    j < |k.tasks| && s < |k.tasks[j].caps| && k.tasks[j].caps[s].endpoint == ep
  }

  predicate Referenced(k: Kernel, ep: nat) {
    exists j: nat, s: nat | j < |k.tasks| && s < |k.tasks[j].caps| :: RefAt(k, j, s, ep)
  }

  /** Drops one capability; the last one ends its endpoint. */
  function CloseCap(k: Kernel, t: nat, slot: nat): Kernel
    requires Shape(k) && t < |k.tasks| && slot < CAPS && 1 <= k.tasks[t].caps[slot].endpoint <= |k.endpoints|
  {
    var c := k.tasks[t].caps[slot];
    var dropped := SetCap(k, t, slot, c.(endpoint := 0));
    if Referenced(dropped, c.endpoint) then dropped else Invalidate(dropped, c.endpoint - 1)
  }

  function EndOwned(k: Kernel, pid: nat, n: nat): (r: Kernel)
    requires n <= |k.endpoints|
    ensures |r.endpoints| == |k.endpoints| && |r.tasks| == |k.tasks|
    decreases n
  {
    if n == 0 then k
    else
      var b := EndOwned(k, pid, n - 1);
      if b.endpoints[n - 1].owner == pid then Invalidate(b, n - 1) else b
  }

  lemma InvalidateShape(k: Kernel, i: nat)
    requires Shape(k) && i < |k.endpoints|
    ensures Shape(Invalidate(k, i))
  {
  }

  lemma {:induction false} EndOwnedShape(k: Kernel, pid: nat, n: nat)
    requires Shape(k) && n <= |k.endpoints|
    ensures Shape(EndOwned(k, pid, n))
    decreases n
  {
    if n > 0 {
      EndOwnedShape(k, pid, n - 1);
    }
  }

  function DropCaps(k: Kernel, t: nat, n: nat): (r: Kernel)
    requires Shape(k) && t < |k.tasks| && n <= CAPS
    ensures Shape(r) && |r.endpoints| == |k.endpoints| && |r.tasks| == |k.tasks|
    decreases n
  {
    if n == 0 then k
    else
      var b := DropCaps(k, t, n - 1);
      var ep := b.tasks[t].caps[n - 1].endpoint;
      if 1 <= ep <= |b.endpoints| then CloseCap(b, t, n - 1) else b
  }

  /** What a dying task leaves: its endpoints ended, then its capabilities closed. */
  function Cleanup(k: Kernel, t: nat): Kernel
    requires Shape(k) && t < |k.tasks|
  {
    EndOwnedShape(k, k.tasks[t].pid, |k.endpoints|);
    DropCaps(EndOwned(k, k.tasks[t].pid, |k.endpoints|), t, CAPS)
  }

  // ------------------------------------------------------------ system calls

  datatype Result = Value(v: nat) | NoSpace | Stale | Denied | Invalid | Timeout | WouldBlock

  function FreeEndpoint(es: seq<Endpoint>): (i: nat)
    ensures i <= |es| && (i < |es| ==> es[i].owner == 0)
    ensures forall n :: 0 <= n < i ==> es[n].owner != 0
  {
    if es == [] || es[0].owner == 0 then 0 else 1 + FreeEndpoint(es[1..])
  }

  function FromHandle(r: (Kernel, Option<nat>)): (Kernel, Result) {
    (r.0, if r.1.Some? then Value(r.1.value) else NoSpace)
  }

  function Create(k: Kernel, t: nat): (Kernel, Result)
    requires Shape(k) && t < |k.tasks|
  {
    var i := FreeEndpoint(k.endpoints);
    if CapSlot(k.tasks[t]).None? || i == |k.endpoints| then (k, NoSpace)
    else
      var e := k.endpoints[i].(owner := k.tasks[t].pid, epoch := (k.endpoints[i].epoch + 1) % U32, head := 0, count := 0);
      FromHandle(Install(k.(endpoints := k.endpoints[i := e]), t, i, {SEND, RECV, DELEGATE}))
  }

  function Close(k: Kernel, t: nat, h: nat): (Kernel, Result)
    requires Shape(k) && t < |k.tasks|
  {
    match Resolve(k, t, h, {})
    case None => (k, Stale)
    case Some(slot) => (CloseCap(k, t, slot), Value(0))
  }

  /** `extra` says the mask asked for has bits other than the three rights. */
  function Derive(k: Kernel, t: nat, h: nat, rights: set<Right>, extra: bool): (Kernel, Result)
    requires Shape(k) && t < |k.tasks|
  {
    match Resolve(k, t, h, {DELEGATE})
    case None => (k, Denied)
    case Some(slot) =>
      var c := k.tasks[t].caps[slot];
      if extra || !(rights <= c.rights) then (k, Denied)
      else FromHandle(Install(k, t, c.endpoint - 1, rights))
  }

  function Revoke(k: Kernel, t: nat, h: nat): (Kernel, Result)
    requires Shape(k) && t < |k.tasks|
  {
    match Resolve(k, t, h, {DELEGATE})
    case None => (k, Denied)
    case Some(slot) =>
      var i := k.tasks[t].caps[slot].endpoint - 1;
      if k.endpoints[i].owner != k.tasks[t].pid then (k, Denied) else (Invalidate(k, i), Value(0))
  }

  /** Queue contents, oldest first. */
  function Ring(e: Endpoint): (q: seq<Message>)
    requires RingOk(e)
    ensures |q| == e.count
  {
    seq(e.count, i requires 0 <= i < e.count => e.queue[(e.head + i) % RING])
  }

  predicate Matches(m: Message, pid: nat, request: nat) { m.sender == pid && m.request == request }

  /** The messages of a queue that a withdrawal leaves, in order. */
  function Kept(q: seq<Message>, pid: nat, request: nat): (r: seq<Message>)
    ensures |r| <= |q|
    ensures forall i :: 0 <= i < |r| ==> r[i] in q && !Matches(r[i], pid, request)
  {
    if q == [] then []
    else
      var front := Kept(q[..|q| - 1], pid, request);
      if Matches(q[|q| - 1], pid, request) then front else front + [q[|q| - 1]]
  }

  const ERASED := Message(0, 0, [])

  /** Logical position of ring cell `p`. */
  function Logical(e: Endpoint, p: nat): nat
    requires e.head < RING && p < RING
  {
    (p + RING - e.head) % RING
  }

  /** The ring after a withdrawal: survivors moved up, vacated cells erased. */
  function Compacted(e: Endpoint, pid: nat, request: nat): (r: Endpoint)
    requires RingOk(e)
  {
    var kept := Kept(Ring(e), pid, request);
    if |kept| == e.count then e
    else
      e.(count := |kept|, head := if kept == [] then 0 else e.head,
         queue := seq(RING, p requires 0 <= p < RING =>
           if Logical(e, p) < |kept| then kept[Logical(e, p)]
           else if Logical(e, p) < e.count then ERASED
           else e.queue[p]))
  }

  /** Withdraws the caller's own queued messages that carry a request id. */
  function Cancel(k: Kernel, t: nat, h: nat, request: nat, reserved: bool): (Kernel, Result)
    requires Shape(k) && t < |k.tasks|
  {
    match Resolve(k, t, h, {SEND})
    case None => (k, Stale)
    case Some(slot) =>
      if reserved then (k, Invalid)
      else
        var i := k.tasks[t].caps[slot].endpoint - 1;
        var e := Compacted(k.endpoints[i], k.tasks[t].pid, request);
        (k.(endpoints := k.endpoints[i := e]), Value(k.endpoints[i].count - |Kept(Ring(k.endpoints[i]), k.tasks[t].pid, request)|))
  }

  /** First task blocked on an endpoint, in table order. */
  function FirstWaiter(tasks: seq<Task>, ep: nat): (j: nat)
    ensures j <= |tasks| && (j < |tasks| ==> tasks[j].state.Blocked? && tasks[j].wait == ep)
    ensures forall n :: 0 <= n < j ==> !(tasks[n].state.Blocked? && tasks[n].wait == ep)
  {
    if tasks == [] || (tasks[0].state.Blocked? && tasks[0].wait == ep) then 0 else 1 + FirstWaiter(tasks[1..], ep)
  }

  function Enqueue(e: Endpoint, m: Message): Endpoint
    requires RingOk(e) && e.count < RING
  {
    e.(queue := e.queue[(e.head + e.count) % RING := m], count := e.count + 1)
  }

  /** Hands a message to the first waiter, or queues it. */
  function Send(k: Kernel, t: nat, h: nat, m: Message, readable: bool, wellFormed: bool, late: bool): (Kernel, Result)
    requires Shape(k) && t < |k.tasks|
  {
    match Resolve(k, t, h, {SEND})
    case None => (k, Stale)
    case Some(slot) =>
      if !readable then (k, Denied)
      else if !wellFormed then (k, Invalid)
      else if late then (k, Timeout)
      else
        var ep := k.tasks[t].caps[slot].endpoint;
        var e, stamped := k.endpoints[ep - 1], m.(sender := k.tasks[t].pid);
        var j := FirstWaiter(k.tasks, ep);
        if j < |k.tasks| then
          (k.(tasks := k.tasks[j := k.tasks[j].(state := Ready, wake := Got(k.tasks[t].pid, stamped))]), Value(0))
        else if e.count == RING then (k, WouldBlock)
        else (k.(endpoints := k.endpoints[ep - 1 := Enqueue(e, stamped)]), Value(0))
  }

  function Dequeue(e: Endpoint): Endpoint
    requires RingOk(e) && e.count > 0
  {
    e.(head := (e.head + 1) % RING, count := e.count - 1)
  }

  /** Takes the oldest message, or blocks until one is sent. */
  function Receive(k: Kernel, t: nat, h: nat, writable: bool, deadline: nat, now: nat): (Kernel, Result)
    requires Shape(k) && t < |k.tasks|
  {
    match Resolve(k, t, h, {RECV})
    case None => (k, Stale)
    case Some(slot) =>
      if !writable then (k, Denied)
      else
        var ep := k.tasks[t].caps[slot].endpoint;
        var e := k.endpoints[ep - 1];
        if e.count > 0 then
          var m := e.queue[e.head];
          (k.(endpoints := k.endpoints[ep - 1 := Dequeue(e)],
              tasks := k.tasks[t := k.tasks[t].(wake := Got(m.sender, m))]), Value(m.sender))
        else if deadline != 0 && now >= deadline then (k, Timeout)
        else
          (k.(tasks := k.tasks[t := k.tasks[t].(state := Blocked, wait := ep, deadline := deadline, wake := Nothing)]), Value(0))
  }

  function Expired(t: Task, now: nat): Task {
    if t.state.Blocked? && t.deadline != 0 && now >= t.deadline then t.(state := Ready, wake := TimedOut) else t
  }

  function Deadlines(k: Kernel, now: nat): Kernel {
    k.(tasks := seq(|k.tasks|, j requires 0 <= j < |k.tasks| => Expired(k.tasks[j], now)))
  }

  // ------------------------------------------------------ task birth and death

  function TaskDead(k: Kernel, t: nat): Kernel
    requires Shape(k) && t < |k.tasks|
  {
    var c := Cleanup(k, t);
    c.(tasks := c.tasks[t := c.tasks[t].(state := Dead)])
  }

  datatype Grant = Grant(handle: nat, rights: set<Right>, extra: bool)

  function GrantOne(k: Kernel, from: nat, to: nat, g: Grant): (Kernel, bool)
    requires Shape(k) && from < |k.tasks| && to < |k.tasks|
  {
    if g.extra then (k, false)
    else
      match Resolve(k, from, g.handle, {DELEGATE})
      case None => (k, false)
      case Some(slot) =>
        var c := k.tasks[from].caps[slot];
        if !(g.rights <= c.rights) then (k, false)
        else
          var r := Install(k, to, c.endpoint - 1, g.rights);
          (r.0, r.1.Some?)
  }

  lemma GrantShape(k: Kernel, from: nat, to: nat, g: Grant)
    requires Shape(k) && from < |k.tasks| && to < |k.tasks|
    ensures Shape(GrantOne(k, from, to, g).0) && |GrantOne(k, from, to, g).0.tasks| == |k.tasks|
  {
  }

  function GrantAll(k: Kernel, from: nat, to: nat, gs: seq<Grant>, n: nat): (r: (Kernel, bool))
    requires Shape(k) && from < |k.tasks| && to < |k.tasks| && n <= |gs|
    ensures Shape(r.0) && |r.0.tasks| == |k.tasks|
    decreases n
  {
    if n == 0 then (k, true)
    else
      var b := GrantAll(k, from, to, gs, n - 1);
      if !b.1 then b
      else
        GrantShape(b.0, from, to, gs[n - 1]);
        GrantOne(b.0, from, to, gs[n - 1])
  }

  predicate Vacant(t: Task) { t.state.Empty? || t.state.Dead? }

  function FirstVacant(tasks: seq<Task>): (j: nat)
    ensures j <= |tasks| && (j < |tasks| ==> Vacant(tasks[j]))
    ensures forall n :: 0 <= n < j ==> !Vacant(tasks[n])
  {
    if tasks == [] || Vacant(tasks[0]) then 0 else 1 + FirstVacant(tasks[1..])
  }

  /** A reused slot keeps only its capability generations. */
  function Reborn(t: Task, pid: nat): Task {
    Task(pid, Empty, t.wait, t.deadline, Nothing,
         seq(|t.caps|, n requires 0 <= n < |t.caps| => t.caps[n].(endpoint := 0)), CAPS)
  }

  function Born(k: Kernel, j: nat): (r: Kernel)
    requires Shape(k) && j < |k.tasks|
    ensures Shape(r) && |r.tasks| == |k.tasks| && r.endpoints == k.endpoints
    ensures forall i :: 0 <= i < |k.tasks| && i != j ==> r.tasks[i] == k.tasks[i]
    ensures r.tasks[j].pid == k.nextPid && r.tasks[j].state.Empty?
  {
    k.(nextPid := k.nextPid + 1, tasks := k.tasks[j := Reborn(k.tasks[j], k.nextPid)])
  }

  /**
   Creates a task with the parent's grants. `fails` stands for the memory and
   device failures of construction; any failure cleans the half-built task up.
   */
  function Spawn(k: Kernel, parent: nat, gs: seq<Grant>, fails: bool): (Kernel, Result)
    requires Shape(k) && parent < |k.tasks|
  {
    var j := FirstVacant(k.tasks);
    if j == |k.tasks| || k.nextPid == 0 || k.nextPid > PID_MAX then (k, NoSpace)
    else
      var g := GrantAll(Born(k, j), parent, j, gs, |gs|);
      if fails || !g.1 then (TaskDead(g.0, j), NoSpace)
      else (g.0.(tasks := g.0.tasks[j := g.0.tasks[j].(state := Ready)]), Value(k.nextPid))
  }

  function SetLimit(k: Kernel, target: nat, limit: nat): (Kernel, bool)
    requires target < |k.tasks|
  {
    if !Live(k.tasks[target]) || limit > CAPS || Used(k.tasks[target].caps) > limit then (k, false)
    else (k.(tasks := k.tasks[target := k.tasks[target].(limit := limit)]), true)
  }

  // ----------------------------------------------------------------- events

  datatype Event =
    | Creates(t: nat)
    | Closes(t: nat, h: nat)
    | Derives(t: nat, h: nat, rights: set<Right>, extra: bool)
    | Revokes(t: nat, h: nat)
    | Cancels(t: nat, h: nat, request: nat, reserved: bool)
    | Sends(t: nat, h: nat, m: Message, readable: bool, wellFormed: bool, late: bool)
    | Receives(t: nat, h: nat, writable: bool, deadline: nat, now: nat)
    | Ticks(now: nat)
    | Dies(t: nat)
    | Spawns(t: nat, grants: seq<Grant>, fails: bool)
    | Limits(target: nat, limit: nat)

  /** No task has been started yet; the first one has no parent and is granted nothing. */
  predicate Booting(k: Kernel) {
    forall j :: 0 <= j < |k.tasks| ==> k.tasks[j].state.Empty? && k.tasks[j].pid == 0
  }

  /** A system call comes from a running task; any task not yet dead may be killed. */
  predicate Enabled(k: Kernel, ev: Event) {
    match ev
    case Ticks(_) => true
    case Dies(t) => t < |k.tasks| && !k.tasks[t].state.Dead?
    case Limits(target, _) => target < |k.tasks|
    case Spawns(t, grants, _) => t < |k.tasks| && (k.tasks[t].state.Ready? || (Booting(k) && grants == []))
    case _ => ev.t < |k.tasks| && k.tasks[ev.t].state.Ready?
  }

  function Next(k: Kernel, ev: Event): Kernel
    requires Shape(k) && Enabled(k, ev)
  {
    match ev
    case Creates(t) => Create(k, t).0
    case Closes(t, h) => Close(k, t, h).0
    case Derives(t, h, rights, extra) => Derive(k, t, h, rights, extra).0
    case Revokes(t, h) => Revoke(k, t, h).0
    case Cancels(t, h, request, reserved) => Cancel(k, t, h, request, reserved).0
    case Sends(t, h, m, readable, wellFormed, late) => Send(k, t, h, m, readable, wellFormed, late).0
    case Receives(t, h, writable, deadline, now) => Receive(k, t, h, writable, deadline, now).0
    case Ticks(now) => Deadlines(k, now)
    case Dies(t) => TaskDead(k, t)
    case Spawns(t, grants, fails) => Spawn(k, t, grants, fails).0
    case Limits(target, limit) => SetLimit(k, target, limit).0
  }
}
