/** Message order: each endpoint delivers its accepted sends in order, less withdrawals. */
module IpcFifo {
  import opened Ipc
  import opened IpcInvariant
  import opened IpcRuns

  datatype Status = Queued | Delivered | Withdrawn(pid: nat)
  datatype Entry = Entry(m: Message, status: Status)

  /** Every message one incarnation of an endpoint accepted, in order, and its fate. */
  type Log = seq<Entry>

  function Waiting(log: Log): seq<Message> {
    if log == [] then []
    else
      var last := log[|log| - 1];
      Waiting(log[..|log| - 1]) + (if last.status.Queued? then [last.m] else [])
  }

  function Taken(log: Log): seq<Message> {
    if log == [] then []
    else
      var last := log[|log| - 1];
      Taken(log[..|log| - 1]) + (if last.status.Delivered? then [last.m] else [])
  }

  function Surviving(log: Log): seq<Message> {
    if log == [] then []
    else
      var last := log[|log| - 1];
      Surviving(log[..|log| - 1]) + (if last.status.Withdrawn? then [] else [last.m])
  }

  ghost predicate Ordered(log: Log) {
    forall a, b :: 0 <= a < b < |log| && log[a].status.Queued? ==> !log[b].status.Delivered?
  }

  ghost predicate OwnWithdrawals(log: Log) {
    forall a :: 0 <= a < |log| && log[a].status.Withdrawn? ==> log[a].status.pid == log[a].m.sender
  }

  ghost predicate LogFits(log: Log, e: Endpoint) {
    RingOk(e) && Waiting(log) == Ring(e) && Ordered(log) && OwnWithdrawals(log)
  }

  function FirstQueued(log: Log): (i: nat)
    ensures i <= |log| && (i < |log| ==> log[i].status.Queued?)
    ensures forall a :: 0 <= a < i ==> !log[a].status.Queued?
  {
    if log == [] || log[0].status.Queued? then 0 else 1 + FirstQueued(log[1..])
  }

  /** A receive delivers the first queued entry. */
  function MarkFirst(log: Log): (r: Log)
    ensures |r| == |log|
  {
    var i := FirstQueued(log);
    if i == |log| then log else log[i := log[i].(status := Delivered)]
  }

  function MarkWithdrawn(log: Log, pid: nat, request: nat): (r: Log)
    ensures |r| == |log|
    ensures forall a :: 0 <= a < |log| ==>
              r[a] == if log[a].status.Queued? && Matches(log[a].m, pid, request) then log[a].(status := Withdrawn(pid)) else log[a]
  {
    seq(|log|, a requires 0 <= a < |log| =>
      if log[a].status.Queued? && Matches(log[a].m, pid, request) then log[a].(status := Withdrawn(pid)) else log[a])
  }

  // ------------------------------------------------------------ the ring itself

  lemma EnqueueRing(e: Endpoint, m: Message)
    requires RingOk(e) && e.count < RING
    ensures RingOk(Enqueue(e, m)) && Ring(Enqueue(e, m)) == Ring(e) + [m]
  {
    var r := Enqueue(e, m);
    forall i | 0 <= i < r.count
      ensures Ring(r)[i] == (Ring(e) + [m])[i]
    {
      assert i < e.count ==> (e.head + i) % 8 != (e.head + e.count) % 8;
    }
  }

  lemma DequeueRing(e: Endpoint)
    requires RingOk(e) && e.count > 0
    ensures RingOk(Dequeue(e)) && Ring(Dequeue(e)) == Ring(e)[1..] && Ring(e)[0] == e.queue[e.head]
  {
    var r := Dequeue(e);
    forall i | 0 <= i < r.count
      ensures Ring(r)[i] == Ring(e)[i + 1]
    {
      assert ((e.head + 1) % 8 + i) % 8 == (e.head + (i + 1)) % 8;
    }
  }

  /** In-place compaction is exactly filtering the queue. */
  lemma CompactedRing(e: Endpoint, pid: nat, request: nat)
    requires RingOk(e)
    ensures RingOk(Compacted(e, pid, request)) && Ring(Compacted(e, pid, request)) == Kept(Ring(e), pid, request)
  {
    hide Compacted, Kept;
    var r, kept := Compacted(e, pid, request), Kept(Ring(e), pid, request);
    CompactedWhole(e, pid, request);
    if |kept| == e.count {
      KeptAll(Ring(e), pid, request);
    } else {
      CompactedShape(e, pid, request);
      forall i: nat | i < |kept|
        ensures Ring(r)[i] == kept[i]
      {
        CompactedAt(e, pid, request, i);
      }
    }
  }

  lemma CompactedWhole(e: Endpoint, pid: nat, request: nat)
    requires RingOk(e)
    ensures |Kept(Ring(e), pid, request)| == e.count ==> Compacted(e, pid, request) == e
  {
    hide Ring, Kept;
  }

  lemma CompactedShape(e: Endpoint, pid: nat, request: nat)
    requires RingOk(e)
    ensures RingOk(Compacted(e, pid, request))
    ensures |Kept(Ring(e), pid, request)| != e.count ==> Compacted(e, pid, request).count == |Kept(Ring(e), pid, request)|
  {
    hide Ring, Kept;
  }

  lemma CompactedAt(e: Endpoint, pid: nat, request: nat, i: nat)
    requires RingOk(e) && i < |Kept(Ring(e), pid, request)| != e.count
    ensures Compacted(e, pid, request).head == e.head
    ensures Compacted(e, pid, request).queue[(e.head + i) % 8] == Kept(Ring(e), pid, request)[i]
  {
    hide Ring, Kept;
    LogicalOf(e.head, i);
  }

  lemma LogicalOf(head: nat, i: nat)
    requires head < 8 && i < 8
    ensures (head + i) % 8 < 8 && ((head + i) % 8 + 8 - head) % 8 == i
  {
  }

  lemma {:induction false} KeptAll(q: seq<Message>, pid: nat, request: nat)
    requires |Kept(q, pid, request)| == |q|
    ensures Kept(q, pid, request) == q
  {
    if q != [] {
      var front := q[..|q| - 1];
      assert |Kept(front, pid, request)| == |front|;
      KeptAll(front, pid, request);
      assert q == front + [q[|q| - 1]];
    }
  }

  // ------------------------------------------------------------- log operations

  lemma AppendLog(log: Log, x: Entry)
    ensures Waiting(log + [x]) == Waiting(log) + (if x.status.Queued? then [x.m] else [])
    ensures Taken(log + [x]) == Taken(log) + (if x.status.Delivered? then [x.m] else [])
  {
    assert (log + [x])[..|log|] == log;
  }

  lemma {:induction false} NothingWaiting(log: Log)
    ensures Waiting(log) == [] <==> forall a :: 0 <= a < |log| ==> !log[a].status.Queued?
  {
    if log != [] {
      NothingWaiting(log[..|log| - 1]);
      assert forall a :: 0 <= a < |log| - 1 ==> log[..|log| - 1][a] == log[a];
    }
  }

  /** Splitting off the first entry instead of the last. */
  lemma {:induction false} WaitingFront(log: Log)
    requires log != []
    ensures Waiting(log) == (if log[0].status.Queued? then [log[0].m] else []) + Waiting(log[1..])
  {
    var n := |log|;
    if n > 1 {
      var front, tail := log[..n - 1], log[1..];
      WaitingFront(front);
      assert front[1..] == tail[..n - 2] && front[0] == log[0] && tail[n - 2] == log[n - 1];
      assert Waiting(tail) == Waiting(front[1..]) + (if log[n - 1].status.Queued? then [log[n - 1].m] else []);
    } else {
      assert log[..0] == [] && log[1..] == [];
    }
  }

  lemma {:induction false} TakenFront(log: Log)
    requires log != []
    ensures Taken(log) == (if log[0].status.Delivered? then [log[0].m] else []) + Taken(log[1..])
  {
    var n := |log|;
    if n > 1 {
      var front, tail := log[..n - 1], log[1..];
      TakenFront(front);
      assert front[1..] == tail[..n - 2] && front[0] == log[0] && tail[n - 2] == log[n - 1];
      assert Taken(tail) == Taken(front[1..]) + (if log[n - 1].status.Delivered? then [log[n - 1].m] else []);
    } else {
      assert log[..0] == [] && log[1..] == [];
    }
  }

  lemma {:induction false} MarkFirstLog(log: Log)
    requires Waiting(log) != [] && Ordered(log)
    ensures Waiting(MarkFirst(log)) == Waiting(log)[1..]
    ensures Taken(MarkFirst(log)) == Taken(log) + [Waiting(log)[0]]
  {
    hide Waiting, Taken;
    assert log != [] by { NothingWaiting(log); }
    WaitingFront(log);
    TakenFront(log);
    var r := MarkFirst(log);
    WaitingFront(r);
    TakenFront(r);
    if log[0].status.Queued? {
      assert r[1..] == log[1..];
      NoneTaken(log[1..]);
    } else {
      TailOrdered(log);
      MarkFirstLog(log[1..]);
      assert r[1..] == MarkFirst(log[1..]);
    }
  }

  lemma TailOrdered(log: Log)
    requires log != [] && Ordered(log)
    ensures Ordered(log[1..])
  {
  }

  lemma MarkFirstOrder(log: Log)
    requires Ordered(log) && OwnWithdrawals(log)
    ensures Ordered(MarkFirst(log)) && OwnWithdrawals(MarkFirst(log))
  {
    hide FirstQueued;
  }

  lemma {:induction false} NoneTaken(log: Log)
    requires forall a :: 0 <= a < |log| ==> !log[a].status.Delivered?
    ensures Taken(log) == []
  {
    if log != [] {
      NoneTaken(log[..|log| - 1]);
    }
  }

  lemma {:induction false} MarkWithdrawnLog(log: Log, pid: nat, request: nat)
    ensures Waiting(MarkWithdrawn(log, pid, request)) == Kept(Waiting(log), pid, request)
    ensures Taken(MarkWithdrawn(log, pid, request)) == Taken(log)
  {
    var r := MarkWithdrawn(log, pid, request);
    if log != [] {
      var front := log[..|log| - 1];
      MarkWithdrawnLog(front, pid, request);
      assert r[..|log| - 1] == MarkWithdrawn(front, pid, request);
      var w, last := Waiting(front), log[|log| - 1];
      if last.status.Queued? {
        assert (w + [last.m])[..|w|] == w;
      } else {
        assert Waiting(log) == w;
      }
    }
  }

  lemma MarkWithdrawnOrder(log: Log, pid: nat, request: nat)
    requires Ordered(log) && OwnWithdrawals(log)
    ensures Ordered(MarkWithdrawn(log, pid, request)) && OwnWithdrawals(MarkWithdrawn(log, pid, request))
  {
  }

  /** What was delivered, then what still waits, is everything accepted and not withdrawn. */
  lemma {:induction false} SurvivorsInOrder(log: Log)
    requires Ordered(log)
    ensures Surviving(log) == Taken(log) + Waiting(log)
  {
    if log != [] {
      var front := log[..|log| - 1];
      SurvivorsInOrder(front);
      if log[|log| - 1].status.Delivered? {
        assert forall a :: 0 <= a < |front| ==> front[a] == log[a];
        NothingWaiting(front);
      }
    }
  }

  // ------------------------------------------------------------------- events

  /** The endpoint a resolved handle names. */
  function Target(k: Kernel, t: nat, h: nat, rights: set<Right>): Option<nat>
    requires Shape(k) && t < |k.tasks|
  {
    match Resolve(k, t, h, rights)
    case None => None
    case Some(slot) => Some(k.tasks[t].caps[slot].endpoint - 1)
  }

  function LogSend(k: Kernel, log: Log, t: nat, i: nat, m: Message): Log
    requires Shape(k) && t < |k.tasks| && i < |k.endpoints|
  {
    var stamped := m.(sender := k.tasks[t].pid);
    if FirstWaiter(k.tasks, i + 1) < |k.tasks| then log + [Entry(stamped, Delivered)]
    else if k.endpoints[i].count < RING then log + [Entry(stamped, Queued)]
    else log
  }

  /** How the logs follow an event; a new incarnation starts an empty log. */
  function NextLogs(k: Kernel, logs: seq<Log>, ev: Event): (r: seq<Log>)
    requires Shape(k) && Enabled(k, ev) && |logs| == |k.endpoints|
    ensures |r| == |logs|
  {
    match ev
    case Creates(t) =>
      var i := FreeEndpoint(k.endpoints);
      if CapSlot(k.tasks[t]).None? || i == |k.endpoints| then logs else logs[i := []]
    case Sends(t, h, m, readable, wellFormed, late) =>
      (match Target(k, t, h, {SEND})
       case None => logs
       case Some(i) => if !readable || !wellFormed || late then logs else logs[i := LogSend(k, logs[i], t, i, m)])
    case Receives(t, h, writable, deadline, now) =>
      (match Target(k, t, h, {RECV})
       case None => logs
       case Some(i) => if !writable || k.endpoints[i].count == 0 then logs else logs[i := MarkFirst(logs[i])])
    case Cancels(t, h, request, reserved) =>
      (match Target(k, t, h, {SEND})
       case None => logs
       case Some(i) => if reserved then logs else logs[i := MarkWithdrawn(logs[i], k.tasks[t].pid, request)])
    case _ => logs
  }

  ghost predicate LogsOk(k: Kernel, logs: seq<Log>) {
    |logs| == |k.endpoints| && forall i :: 0 <= i < |k.endpoints| && k.endpoints[i].owner != 0 ==> LogFits(logs[i], k.endpoints[i])
  }

  lemma FrameLogs(k: Kernel, r: Kernel, logs: seq<Log>)
    requires LogsOk(k, logs) && |r.endpoints| == |k.endpoints|
    requires forall i :: 0 <= i < |k.endpoints| ==> r.endpoints[i] == k.endpoints[i] || r.endpoints[i].owner == 0
    ensures LogsOk(r, logs)
  {
    hide LogFits;
  }

  lemma QuietLogs(k: Kernel, ev: Event, logs: seq<Log>)
    requires Inv(k) && Shape(k) && Enabled(k, ev) && LogsOk(k, logs)
    requires !ev.Creates? && !ev.Sends? && !ev.Receives? && !ev.Cancels?
    ensures LogsOk(Next(k, ev), logs)
  {
    hide Core, LogsOk, TaskDead, Spawn, Resolve, CloseCap, Invalidate, Install;
    if ev.Closes? {
      if Resolve(k, ev.t, ev.h, {}).Some? {
        CloseCapFrame(k, ev.t, Resolve(k, ev.t, ev.h, {}).value);
      }
    } else if ev.Revokes? {
      if Resolve(k, ev.t, ev.h, {DELEGATE}).Some? {
        InvalidateFrame(k, k.tasks[ev.t].caps[Resolve(k, ev.t, ev.h, {DELEGATE}).value].endpoint - 1);
      }
    } else if ev.Dies? {
      Exempt(k, ev.t);
      DiesEndpoints(k, ev.t);
    } else if ev.Spawns? {
      SpawnEndpoints(k, ev.t, ev.grants, ev.fails);
    } else if ev.Derives? {
      DeriveEndpoints(k, ev.t, ev.h, ev.rights, ev.extra);
    }
    FrameLogs(k, Next(k, ev), logs);
  }

  lemma DeriveEndpoints(k: Kernel, t: nat, h: nat, rights: set<Right>, extra: bool)
    requires Shape(k) && t < |k.tasks|
    ensures Derive(k, t, h, rights, extra).0.endpoints == k.endpoints
  {
    hide CapSlot;
  }

  lemma DiesEndpoints(k: Kernel, t: nat)
    requires Core(k, t, -1) && Shape(k) && t < |k.tasks|
    ensures |TaskDead(k, t).endpoints| == |k.endpoints|
    ensures forall i :: 0 <= i < |k.endpoints| ==> TaskDead(k, t).endpoints[i] == k.endpoints[i] || TaskDead(k, t).endpoints[i].owner == 0
  {
    hide Core, Cleanup;
    DeadKeeps(k, t);
  }

  lemma SpawnEndpoints(k: Kernel, parent: nat, gs: seq<Grant>, fails: bool)
    requires Inv(k) && Shape(k) && parent < |k.tasks|
    ensures var r := Spawn(k, parent, gs, fails).0;
            |r.endpoints| == |k.endpoints| && forall i :: 0 <= i < |k.endpoints| ==> r.endpoints[i] == k.endpoints[i] || r.endpoints[i].owner == 0
  {
    hide Core, GrantAll, TaskDead, FirstVacant, Born;
    var j := FirstVacant(k.tasks);
    if j < |k.tasks| && 0 < k.nextPid <= PID_MAX {
      BornKeeps(k, j);
      var born := Born(k, j);
      CoreShape(born, j);
      GrantAllKeeps(born, parent, j, gs, |gs|);
      var g := GrantAll(born, parent, j, gs, |gs|);
      if fails || !g.1 {
        DiesEndpoints(g.0, j);
      }
    }
  }

  lemma CreateLogs(k: Kernel, t: nat, logs: seq<Log>)
    requires Inv(k) && Shape(k) && Enabled(k, Creates(t)) && LogsOk(k, logs)
    ensures LogsOk(Next(k, Creates(t)), NextLogs(k, logs, Creates(t)))
  {
    hide Core, CapSlot, FreeEndpoint;
  }

  lemma SendLogs(k: Kernel, ev: Event, logs: seq<Log>)
    requires Inv(k) && Shape(k) && Enabled(k, ev) && ev.Sends? && LogsOk(k, logs)
    ensures LogsOk(Next(k, ev), NextLogs(k, logs, ev))
  {
    hide AllReferenced, OwnersLive, VacantClean, PidsOk, WithinLimits, Waiting, Ring, Ordered, Enqueue, FirstWaiter;
    if Resolve(k, ev.t, ev.h, {SEND}).Some? && ev.readable && ev.wellFormed && !ev.late {
      var i := k.tasks[ev.t].caps[Resolve(k, ev.t, ev.h, {SEND}).value].endpoint - 1;
      var stamped := ev.m.(sender := k.tasks[ev.t].pid);
      var j := FirstWaiter(k.tasks, i + 1);
      if j < |k.tasks| {
        assert WaiterOk(k, k.tasks[j]);
        HandOffLog(logs[i], k.endpoints[i], stamped);
      } else if k.endpoints[i].count < RING {
        EnqueueLog(logs[i], k.endpoints[i], stamped);
      }
    }
  }

  lemma HandOffLog(log: Log, e: Endpoint, m: Message)
    requires LogFits(log, e) && e.count == 0
    ensures LogFits(log + [Entry(m, Delivered)], e)
  {
    AppendLog(log, Entry(m, Delivered));
    NothingWaiting(log);
  }

  lemma EnqueueLog(log: Log, e: Endpoint, m: Message)
    requires LogFits(log, e) && e.count < RING
    ensures LogFits(log + [Entry(m, Queued)], Enqueue(e, m))
    ensures Enqueue(e, m).owner == e.owner
  {
    hide Ring;
    AppendLog(log, Entry(m, Queued));
    EnqueueRing(e, m);
  }

  lemma ReceiveLogs(k: Kernel, ev: Event, logs: seq<Log>)
    requires Inv(k) && Shape(k) && Enabled(k, ev) && ev.Receives? && LogsOk(k, logs)
    ensures LogsOk(Next(k, ev), NextLogs(k, logs, ev))
  {
    hide Core, Waiting, Ring, Ordered, Dequeue;
    if Resolve(k, ev.t, ev.h, {RECV}).Some? && ev.writable {
      var i := k.tasks[ev.t].caps[Resolve(k, ev.t, ev.h, {RECV}).value].endpoint - 1;
      if k.endpoints[i].count > 0 {
        DequeueLog(logs[i], k.endpoints[i]);
      }
    }
  }

  lemma DequeueLog(log: Log, e: Endpoint)
    requires LogFits(log, e) && e.count > 0
    ensures LogFits(MarkFirst(log), Dequeue(e)) && Dequeue(e).owner == e.owner
    ensures Taken(MarkFirst(log)) == Taken(log) + [e.queue[e.head]]
  {
    hide Ordered, OwnWithdrawals, Waiting, Taken;
    DequeueRing(e);
    MarkFirstLog(log);
    MarkFirstOrder(log);
  }

  lemma CancelLogs(k: Kernel, ev: Event, logs: seq<Log>)
    requires Inv(k) && Shape(k) && Enabled(k, ev) && ev.Cancels? && LogsOk(k, logs)
    ensures LogsOk(Next(k, ev), NextLogs(k, logs, ev))
  {
    hide Core, Waiting, Ring, Ordered, Compacted, Kept;
    if Resolve(k, ev.t, ev.h, {SEND}).Some? && !ev.reserved {
      var i := k.tasks[ev.t].caps[Resolve(k, ev.t, ev.h, {SEND}).value].endpoint - 1;
      WithdrawLog(logs[i], k.endpoints[i], k.tasks[ev.t].pid, ev.request);
    }
  }

  lemma WithdrawLog(log: Log, e: Endpoint, pid: nat, request: nat)
    requires LogFits(log, e)
    ensures LogFits(MarkWithdrawn(log, pid, request), Compacted(e, pid, request))
    ensures Compacted(e, pid, request).owner == e.owner
  {
    hide Ring, Waiting, Kept;
    CompactedRing(e, pid, request);
    MarkWithdrawnLog(log, pid, request);
    MarkWithdrawnOrder(log, pid, request);
  }

  ghost predicate IsLoggedRun(run: seq<Kernel>, evs: seq<Event>, logs: seq<seq<Log>>) {
    && IsRun(run, evs) && |logs| == |run| && LogsOk(run[0], logs[0])
    && forall i {:trigger evs[i]} :: 0 <= i < |evs| ==>
         |logs[i]| == |run[i].endpoints| && logs[i + 1] == NextLogs(run[i], logs[i], evs[i])
  }

  lemma {:induction false} RunLogs(run: seq<Kernel>, evs: seq<Event>, logs: seq<seq<Log>>, n: nat)
    requires IsLoggedRun(run, evs, logs) && n < |run|
    ensures LogsOk(run[n], logs[n])
  {
    hide Inv, Next, NextLogs, LogsOk;
    if n > 0 {
      RunLogs(run, evs, logs, n - 1);
      RunInv(run, evs, n - 1);
      var k, ev := run[n - 1], evs[n - 1];
      assert run[n] == Next(k, ev) && logs[n] == NextLogs(k, logs[n - 1], ev);
      if ev.Creates? {
        CreateLogs(k, ev.t, logs[n - 1]);
      } else if ev.Sends? {
        SendLogs(k, ev, logs[n - 1]);
      } else if ev.Receives? {
        ReceiveLogs(k, ev, logs[n - 1]);
      } else if ev.Cancels? {
        CancelLogs(k, ev, logs[n - 1]);
      } else {
        QuietLogs(k, ev, logs[n - 1]);
        assert NextLogs(k, logs[n - 1], ev) == logs[n - 1] by { SameLogs(k, logs[n - 1], ev); }
      }
    }
  }

  lemma SameLogs(k: Kernel, logs: seq<Log>, ev: Event)
    requires Shape(k) && Enabled(k, ev) && |logs| == |k.endpoints|
    requires !ev.Creates? && !ev.Sends? && !ev.Receives? && !ev.Cancels?
    ensures NextLogs(k, logs, ev) == logs
  {
  }

  /**
   At every point of every run, for every live endpoint: the messages delivered so
   far followed by the ring contents are the accepted sends in order, minus those
   withdrawn, and each of those was withdrawn by its own sender.
   */
  lemma DeliveredThenQueued(run: seq<Kernel>, evs: seq<Event>, logs: seq<seq<Log>>, n: nat, i: nat)
    requires IsLoggedRun(run, evs, logs) && n < |run| && i < |run[n].endpoints| && run[n].endpoints[i].owner != 0
    ensures |logs[n]| == |run[n].endpoints| && RingOk(run[n].endpoints[i])
    ensures Surviving(logs[n][i]) == Taken(logs[n][i]) + Ring(run[n].endpoints[i])
    ensures OwnWithdrawals(logs[n][i])
  {
    hide Inv, Next, NextLogs, Surviving, Taken, Waiting, Ring;
    RunLogs(run, evs, logs, n);
    SurvivorsInOrder(logs[n][i]);
  }

  /** A receive that finds a message delivers the oldest one waiting. */
  lemma ReceiveTakesOldest(k: Kernel, ev: Event, logs: seq<Log>, i: nat)
    requires Inv(k) && Shape(k) && Enabled(k, ev) && ev.Receives? && ev.writable && LogsOk(k, logs)
    requires i < |k.endpoints| && Target(k, ev.t, ev.h, {RECV}) == Some(i) && k.endpoints[i].count > 0
    ensures ev.t < |Next(k, ev).tasks| && Delivers(logs[i], NextLogs(k, logs, ev)[i], Next(k, ev).tasks[ev.t])
  {
    hide Core, Waiting, Ring, Ordered, Dequeue, Taken, LogFits;
    assert LogFits(logs[i], k.endpoints[i]) by { OwnedTarget(k, ev.t, ev.h, i); }
    DequeueLog(logs[i], k.endpoints[i]);
  }

  /** The task has been given a message, and that message is the next one delivered. */
  ghost predicate Delivers(before: Log, after: Log, t: Task) {
    t.wake.Got? && Taken(after) == Taken(before) + [t.wake.message]
  }

  lemma OwnedTarget(k: Kernel, t: nat, h: nat, i: nat)
    requires Shape(k) && t < |k.tasks| && i < |k.endpoints| && Target(k, t, h, {RECV}) == Some(i)
    ensures k.endpoints[i].owner != 0
  {
  }

  /** A send that finds a waiter hands it the very message that is logged as delivered. */
  lemma SendHandsOver(k: Kernel, ev: Event, logs: seq<Log>, i: nat)
    requires Shape(k) && Enabled(k, ev) && ev.Sends? && ev.readable && ev.wellFormed && !ev.late && |logs| == |k.endpoints|
    requires i < |k.endpoints| && Target(k, ev.t, ev.h, {SEND}) == Some(i) && FirstWaiter(k.tasks, i + 1) < |k.tasks|
    ensures var j := FirstWaiter(k.tasks, i + 1);
            && j < |Next(k, ev).tasks| && Delivers(logs[i], NextLogs(k, logs, ev)[i], Next(k, ev).tasks[j])
            && Next(k, ev).tasks[j].wake.message == ev.m.(sender := k.tasks[ev.t].pid)
  {
    hide FirstWaiter;
    AppendLog(logs[i], Entry(ev.m.(sender := k.tasks[ev.t].pid), Delivered));
  }
}
