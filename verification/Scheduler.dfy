/** The aging round-robin scheduler and its starvation bound. */
module Scheduler {

  const PRIORITY_MAX := 3
  const AGING_TICKS := 4
  const MAX_TASKS := 12

  datatype Entry = Entry(readySince: nat, priority: nat, ready: bool)

  predicate Eligible(e: Entry) { e.ready && e.priority <= PRIORITY_MAX }

  /** Priority plus one level per four ticks of waiting, capped at the top level. */
  function Score(e: Entry, now: nat): (s: nat)
    requires e.priority <= PRIORITY_MAX
    ensures e.priority <= s <= PRIORITY_MAX
    ensures now >= e.readySince + 12 ==> s == PRIORITY_MAX
  {
    var age := if now >= e.readySince then now - e.readySince else 0;
    var boost := age / AGING_TICKS;
    if boost >= PRIORITY_MAX - e.priority then PRIORITY_MAX else e.priority + boost
  }

  /** How long a task has been ready, by the clock. */
  function Waited(e: Entry, now: nat): nat { if now >= e.readySince then now - e.readySince else 0 }

  /** A score is the priority plus one for each four ticks of waiting, up to the top level. */
  lemma ScoreIs(e: Entry, now: nat, steps: nat)
    requires e.priority <= 3 && 4 * steps <= Waited(e, now) < 4 * steps + 4
    ensures Score(e, now) == if e.priority + steps <= 3 then e.priority + steps else 3
  {
  }

  /** Of two tasks that have waited equally long, the one of higher priority scores at least as high, and higher below the top. */
  lemma PriorityCounts(a: Entry, b: Entry, now: nat)
    requires a.priority <= 3 && b.priority <= 3 && Waited(a, now) == Waited(b, now) && a.priority < b.priority
    ensures Score(a, now) <= Score(b, now)
    ensures Score(a, now) < 3 ==> Score(a, now) < Score(b, now)
  {
    ScoreIs(a, now, Waited(a, now) / 4);
    ScoreIs(b, now, Waited(b, now) / 4);
  }

  /** Waiting four ticks more is worth exactly one level, until the top. */
  lemma WaitingCounts(e: Entry, now: nat)
    requires e.priority <= 3 && now >= e.readySince
    ensures Score(e, now + 4) == if Score(e, now) == 3 then 3 else Score(e, now) + 1
  {
    var steps := (now - e.readySince) / 4;
    ScoreIs(e, now, steps);
    ScoreIs(e, now + 4, steps + 1);
  }

  lemma ModOnce(a: nat, n: nat)
    requires a < 2 * n
    ensures a % n == if a < n then a else a - n
  {
    var q, r := a / n, a % n;
    assert a == q * n + r;
    assert q >= 2 ==> q * n >= 2 * n;
  }

  /** The entry the traversal visits at `step`, starting after `current`. */
  function Visited(current: int, step: nat, n: nat): (i: nat)
    requires -1 <= current < n && 1 <= step <= n
    ensures i < n && i == if current + step < n then current + step else current + step - n
  {
    ModOnce(current + step, n);
    (current + step) % n
  }

  /** Steps of the traversal until it reaches `i`. */
  function Distance(current: int, i: int, n: nat): (d: nat)
    requires -1 <= current < n && 0 <= i < n
    ensures 1 <= d <= n && Visited(current, d, n) == i
  {
    if i > current then i - current else i - current + n
  }

  lemma StepDistance(current: int, step: nat, n: nat)
    requires -1 <= current < n && 1 <= step <= n
    ensures Distance(current, Visited(current, step, n), n) == step
  {
    hide Visited;
  }

  /** Among the eligible entries, the best score; among those, the nearest after `current`. */
  ghost predicate IsPick(es: seq<Entry>, current: int, now: nat, r: int) {
    && -1 <= current < |es| && -1 <= r < |es|
    && (r == -1 ==> forall i :: 0 <= i < |es| ==> !Eligible(es[i]))
    && (r >= 0 ==> Eligible(es[r]))
    && (r >= 0 ==> forall i :: 0 <= i < |es| && Eligible(es[i]) ==>
          || Score(es[i], now) < Score(es[r], now)
          || (Score(es[i], now) == Score(es[r], now) && Distance(current, r, |es|) <= Distance(current, i, |es|)))
  }

  /** The specification leaves no choice. */
  lemma PickUnique(es: seq<Entry>, current: int, now: nat, a: int, b: int)
    requires IsPick(es, current, now, a) && IsPick(es, current, now, b)
    ensures a == b
  {
    hide Score, Distance, Visited;
    if a >= 0 && b >= 0 {
      assert Visited(current, Distance(current, a, |es|), |es|) == a;
      assert Visited(current, Distance(current, b, |es|), |es|) == b;
    }
  }

  method Pick(es: seq<Entry>, current: int, now: nat) returns (selected: int)
    ensures 0 < |es| <= MAX_TASKS && -1 <= current < |es| ==> IsPick(es, current, now, selected)
    ensures !(0 < |es| <= MAX_TASKS && -1 <= current < |es|) ==> selected == -1
  {
    hide Score, Distance, Visited;
    if |es| == 0 || |es| > MAX_TASKS || current < -1 || current >= |es| {
      return -1;
    }
    selected := -1;
    var best, n := 0, |es|;
    for step := 1 to n + 1
      invariant -1 <= selected < n
      invariant selected >= 0 ==> Eligible(es[selected]) && best == Score(es[selected], now) && Distance(current, selected, n) < step
      invariant selected == -1 ==> forall i :: 0 <= i < n && Distance(current, i, n) < step ==> !Eligible(es[i])
      invariant selected >= 0 ==> forall i :: 0 <= i < n && Distance(current, i, n) < step && Eligible(es[i]) ==>
                  || Score(es[i], now) < best
                  || (Score(es[i], now) == best && Distance(current, selected, n) <= Distance(current, i, n))
    {
      StepDistance(current, step, n);
      var i := Visited(current, step, n);
      if Eligible(es[i]) {
        var score := Score(es[i], now);
        if selected < 0 || score > best {
          selected, best := i, score;
        }
      }
      forall k | 0 <= k < n && Distance(current, k, n) < step + 1
        ensures k == i || Distance(current, k, n) < step
      {
        assert Visited(current, Distance(current, k, n), n) == k;
      }
    }
  }

  // ----------------------------------------------------------- starvation

  /** One pick. A pick whose saved frame is unusable kills that task instead of running it. */
  datatype Decision = Decision(es: seq<Entry>, current: int, now: nat, chosen: int, killed: bool)

  /** Between picks anything may happen, except that the running task is the last one returned. */
  ghost predicate Follows(a: Decision, b: Decision) {
    |b.es| == |a.es| && b.current == if a.killed then a.current else a.chosen
  }

  ghost predicate IsSchedule(run: seq<Decision>) {
    && (forall k :: 0 <= k < |run| ==> IsPick(run[k].es, run[k].current, run[k].now, run[k].chosen))
    && (forall k :: 0 <= k < |run| - 1 ==> Follows(run[k], run[k + 1]))
  }

  /** Task `x` has been ready, unchosen, for at least twelve ticks. */
  ghost predicate Starving(d: Decision, x: nat) {
    && x < |d.es| && d.chosen != x && Eligible(d.es[x]) && d.now >= d.es[x].readySince + 12
  }

  /** How many of the first `n` picks returned a task to run. */
  function Returned(run: seq<Decision>, n: nat): nat
    requires n <= |run|
  {
    if n == 0 then 0 else Returned(run, n - 1) + (if run[n - 1].killed then 0 else 1)
  }

  /** Passing over a starving task brings the traversal strictly nearer to it. */
  lemma PassingOverApproaches(d: Decision, x: nat)
    requires IsPick(d.es, d.current, d.now, d.chosen) && Starving(d, x)
    ensures d.chosen >= 0
    ensures Distance(d.chosen, x, |d.es|) < Distance(d.current, x, |d.es|)
  {
    hide Score, Visited;
    var n := |d.es|;
    assert Score(d.es[x], d.now) == PRIORITY_MAX;
    assert Distance(d.current, d.chosen, n) <= Distance(d.current, x, n);
  }

  lemma {:induction false} WaitIsBounded(run: seq<Decision>, x: nat, k: nat)
    requires IsSchedule(run) && k < |run| && forall m :: 0 <= m <= k ==> Starving(run[m], x)
    ensures Starving(run[k], x) && |run[0].es| == |run[k].es|
    ensures Returned(run, k) + Distance(run[k].current, x, |run[k].es|) <= Distance(run[0].current, x, |run[0].es|)
  {
    hide IsPick, Distance, Visited;
    if k > 0 {
      WaitIsBounded(run, x, k - 1);
      assert Follows(run[k - 1], run[k]);
      PickCurrent(run[k - 1]);
      PassingOverApproaches(run[k - 1], x);
    } else {
      PickCurrent(run[0]);
    }
    PickCurrent(run[k]);
  }

  lemma PickCurrent(d: Decision)
    requires IsPick(d.es, d.current, d.now, d.chosen)
    ensures -1 <= d.current < |d.es|
  {
  }

  /**
   A task ready for twelve ticks is picked before as many other tasks have been
   returned to run as there are slots, whatever priorities are set meanwhile.
   */
  lemma NoStarvation(run: seq<Decision>, x: nat)
    requires IsSchedule(run) && |run| > 0 && x < |run[0].es|
    requires forall m :: 0 <= m < |run| ==> Starving(run[m], x)
    ensures Returned(run, |run|) < |run[0].es|
  {
    hide IsPick, Distance, Visited;
    var last := |run| - 1;
    WaitIsBounded(run, x, last);
    PickCurrent(run[last]);
    PickCurrent(run[0]);
    PassingOverApproaches(run[last], x);
  }

  // -------------------------------------------------------- the scheduler

  datatype State = Ready | Blocked | Gone

  /** A task as the scheduler sees it: `returnable` says its saved stack pointer is canonical, `initial` that it is the first task. */
  datatype Slot = Slot(state: State, priority: nat, readySince: nat, returnable: bool, initial: bool)

  function Entries(slots: seq<Slot>): (es: seq<Entry>)
    ensures |es| == |slots|
    ensures forall i :: 0 <= i < |es| ==> es[i] == Entry(slots[i].readySince, slots[i].priority, slots[i].state.Ready?)
  {
    seq(|slots|, i requires 0 <= i < |slots| => Entry(slots[i].readySince, slots[i].priority, slots[i].state.Ready?))
  }

  function LiveCount(slots: seq<Slot>): nat {
    if slots == [] then 0 else LiveCount(slots[..|slots| - 1]) + (if slots[|slots| - 1].state.Gone? then 0 else 1)
  }

  /** Task `i` dies; blocked tasks among `woken` were waiting on its endpoints and become ready. */
  function Killed(slots: seq<Slot>, i: nat, woken: set<nat>, now: nat): (r: seq<Slot>)
    requires i < |slots|
    ensures |r| == |slots| && r[i].state.Gone?
    ensures forall k :: 0 <= k < |slots| ==>
              && r[k].returnable == slots[k].returnable && r[k].initial == slots[k].initial
              && (r[k].state.Gone? <==> k == i || slots[k].state.Gone?)
              && (k != i && !(k in woken && slots[k].state.Blocked?) ==> r[k] == slots[k])
              && (k != i && k in woken && slots[k].state.Blocked? ==>
                    r[k].state.Ready? && r[k].readySince == now && r[k].priority == slots[k].priority)
  {
    seq(|slots|, k requires 0 <= k < |slots| =>
      if k == i then slots[k].(state := Gone)
      else if k in woken && slots[k].state.Blocked? then slots[k].(state := Ready, readySince := now)
      else slots[k])
  }

  function Touched(slots: seq<Slot>, i: nat, now: nat): seq<Slot>
    requires i < |slots|
  {
    slots[i := slots[i].(readySince := now)]
  }

  lemma {:induction false} CountKept(a: seq<Slot>, b: seq<Slot>)
    requires |a| == |b| && forall k :: 0 <= k < |a| ==> b[k].state.Gone? == a[k].state.Gone?
    ensures LiveCount(b) == LiveCount(a)
  {
    if a != [] {
      CountKept(a[..|a| - 1], b[..|b| - 1]);
    }
  }

  lemma {:induction false} CountDrops(a: seq<Slot>, b: seq<Slot>, i: nat)
    requires |a| == |b| && i < |a| && !a[i].state.Gone?
    requires forall k :: 0 <= k < |a| ==> (b[k].state.Gone? <==> k == i || a[k].state.Gone?)
    ensures LiveCount(b) < LiveCount(a)
  {
    var n := |a| - 1;
    if i < n {
      CountDrops(a[..n], b[..n], i);
    } else {
      CountKept(a[..n], b[..n]);
    }
  }

  /** However many tasks a kill wakes, fewer are alive. */
  lemma KillingCounts(slots: seq<Slot>, i: nat, woken: set<nat>, now: nat)
    requires i < |slots| && !slots[i].state.Gone?
    ensures LiveCount(Killed(slots, i, woken, now)) < LiveCount(slots)
  {
    hide Killed, LiveCount;
    CountDrops(slots, Killed(slots, i, woken, now), i);
  }

  /** Every pick but the last killed the task it chose; the last one did not. */
  ghost predicate OneReturn(run: seq<Decision>) {
    && |run| > 0 && !run[|run| - 1].killed
    && forall k :: 0 <= k < |run| - 1 ==> run[k].killed
  }

  lemma {:induction false} AllKilled(run: seq<Decision>, n: nat)
    requires n <= |run| && forall k :: 0 <= k < n ==> run[k].killed
    ensures Returned(run, n) == 0
  {
    if n > 0 {
      AllKilled(run, n - 1);
    }
  }

  /** One scheduling call returns exactly one task to run. */
  lemma CallReturnsOne(run: seq<Decision>)
    requires OneReturn(run)
    ensures Returned(run, |run|) == 1
  {
    AllKilled(run, |run| - 1);
  }

  lemma ReturnsSomething(run: seq<Decision>)
    requires OneReturn(run)
    ensures run != []
  {
  }

  lemma {:induction false} ReturnedSplit(a: seq<Decision>, b: seq<Decision>, n: nat)
    requires n <= |b|
    ensures Returned(a + b, |a| + n) == Returned(a, |a|) + Returned(b, n)
  {
    if n == 0 {
      ReturnedPrefix(a, b, |a|);
    } else {
      ReturnedSplit(a, b, n - 1);
    }
  }

  lemma {:induction false} ReturnedPrefix(a: seq<Decision>, b: seq<Decision>, n: nat)
    requires n <= |a|
    ensures Returned(a + b, n) == Returned(a, n)
  {
    if n > 0 {
      ReturnedPrefix(a, b, n - 1);
    }
  }

  /** The picks of consecutive scheduling calls, in order. */
  function Joined(calls: seq<seq<Decision>>): seq<Decision> {
    if calls == [] then [] else Joined(calls[..|calls| - 1]) + calls[|calls| - 1]
  }

  lemma {:induction false} CallsReturn(calls: seq<seq<Decision>>)
    requires forall c :: 0 <= c < |calls| ==> OneReturn(calls[c])
    ensures Returned(Joined(calls), |Joined(calls)|) == |calls|
    ensures calls != [] ==> Joined(calls) != []
  {
    hide OneReturn;
    if calls != [] {
      var front, last := calls[..|calls| - 1], calls[|calls| - 1];
      CallsReturn(front);
      CallReturnsOne(last);
      assert last != [] by { ReturnsSomething(last); }
      ReturnedSplit(Joined(front), last, |last|);
    }
  }

  /** In scheduling calls: fewer consecutive calls than there are slots can pass over a starving task. */
  lemma NoStarvationByCalls(calls: seq<seq<Decision>>, x: nat)
    requires calls != [] && forall c :: 0 <= c < |calls| ==> OneReturn(calls[c])
    requires IsSchedule(Joined(calls)) && forall m :: 0 <= m < |Joined(calls)| ==> Starving(Joined(calls)[m], x)
    ensures Joined(calls) != [] && |calls| < |Joined(calls)[0].es|
  {
    hide IsSchedule, Returned, Joined, OneReturn;
    CallsReturn(calls);
    assert Starving(Joined(calls)[0], x);
    NoStarvation(Joined(calls), x);
  }

  class Cpu {
    var slots: seq<Slot>
    var current: int

    ghost predicate Valid()
      reads this
    {
      0 < |slots| <= MAX_TASKS && -1 <= current < |slots|
    }

    /**
     Picks until a returnable task is found. A pick that is not is killed, which may
     wake others; if it is the first task the kernel panics. With nothing eligible the
     processor halts, `chosen == -1`.
     */
    method Schedule(now: nat, wakes: Wakes) returns (chosen: int, panics: bool, ghost run: seq<Decision>)
      requires Valid()
      modifies this
      ensures Valid() && |slots| == old(|slots|)
      ensures IsCall(run, Rested(old(slots), old(current), now), old(current), now, wakes)
      ensures chosen == run[|run| - 1].chosen
      ensures chosen >= 0 && !panics ==> slots[chosen].readySince == now
      ensures var before := SlotsAfter(Rested(old(slots), old(current), now), run[..|run| - 1], wakes, now);
              && -1 <= chosen < |before| && (panics <==> Unusable(before, chosen))
              && (panics ==> before[chosen].initial)
              && (chosen == -1 || panics ==> current == old(current) && slots == before)
              && (chosen == -1 ==> forall i :: 0 <= i < |slots| ==> !Eligible(Entries(slots)[i]))
              && (chosen >= 0 && !panics ==>
                    OneReturn(run) && before[chosen].state.Ready? && current == chosen && slots == Touched(before, chosen, now))
    {
      hide IsPick, Distance, Visited, Score, IsCall, LiveCount, Killed, SlotsAfter;
      slots, panics := Rested(slots, current, now), false;
      ghost var start := slots;
      run := [];
      assert Follow(run, start, slots, current, now, wakes) by { NothingYet(start, current, now, wakes); }
      var kills := 0;
      while true
        invariant Valid() && |slots| == old(|slots|) && current == old(current) && kills == |run| && !panics
        invariant |start| == |slots| && Follow(run, start, slots, current, now, wakes)
        decreases LiveCount(slots)
      {
        var i := Pick(Entries(slots), current, now);
        PickFacts(Entries(slots), current, now, i);
        ghost var d := Decision(Entries(slots), current, now, i, Unusable(slots, i));
        FollowStep(run, start, slots, d, wakes);
        chosen := i;
        if i < 0 {
          run := run + [d];
          return;
        }
        if slots[i].returnable {
          run := run + [d];
          current := i;
          slots := Touched(slots, i, now);
          return;
        }
        if slots[i].initial {
          run, panics := run + [d], true;
          return;
        }
        KillingCounts(slots, i, wakes(kills), now);
        FollowKill(run, start, slots, d, wakes);
        slots, kills := Killed(slots, i, wakes(kills), now), kills + 1;
        run := run + [d];
      }
    }
  }

  /** The first pick of a call sees the running task as ready only since now, and every other task as it is. */
  lemma FirstPick(run: seq<Decision>, slots: seq<Slot>, current: int, now: nat, wakes: Wakes)
    requires -1 <= current < |slots| && IsCall(run, Rested(slots, current, now), current, now, wakes)
    ensures |run| > 0 && |run[0].es| == |slots|
    ensures forall k :: 0 <= k < |slots| ==>
              run[0].es[k] == Entry(if k == current && slots[k].state.Ready? then now else slots[k].readySince,
                                    slots[k].priority, slots[k].state.Ready?)
  {
    hide IsPick;
    assert run[..0] == [];
  }

  lemma NothingYet(start: seq<Slot>, current: int, now: nat, wakes: Wakes)
    ensures Follow([], start, start, current, now, wakes)
  {
  }

  /** The running task earns no waiting credit for the time it ran. */
  function Rested(slots: seq<Slot>, current: int, now: nat): (r: seq<Slot>)
    requires -1 <= current < |slots|
    ensures |r| == |slots|
  {
    if current >= 0 && slots[current].state.Ready? then Touched(slots, current, now) else slots
  }

  /** Which tasks each kill of a call wakes, by the number of kills before it. */
  type Wakes = nat -> set<nat>

  /** The slots once every task picked in `run` has been killed. */
  ghost function SlotsAfter(start: seq<Slot>, run: seq<Decision>, wakes: Wakes, now: nat): (r: seq<Slot>)
    ensures |r| == |start|
    ensures forall k :: 0 <= k < |r| ==> r[k].returnable == start[k].returnable && r[k].initial == start[k].initial
  {
    if run == [] then start
    else
      var n := |run| - 1;
      var s := SlotsAfter(start, run[..n], wakes, now);
      if 0 <= run[n].chosen < |s| then Killed(s, run[n].chosen, wakes(n), now) else s
  }

  predicate Unusable(slots: seq<Slot>, i: int) { 0 <= i < |slots| && !slots[i].returnable }

  /** Each pick sees the slots that the kills before it have left. */
  ghost predicate Sees(run: seq<Decision>, start: seq<Slot>, now: nat, wakes: Wakes) {
    forall k :: 0 <= k < |run| ==> run[k].es == Entries(SlotsAfter(start, run[..k], wakes, now))
  }

  /**
   The picks of one call. Every one but the last chose a task that had to be killed
   and was not the first task.
   */
  ghost predicate IsCall(run: seq<Decision>, start: seq<Slot>, current: int, now: nat, wakes: Wakes) {
    && IsSchedule(run) && |run| > 0 && Sees(run, start, now, wakes)
    && (forall k :: 0 <= k < |run| ==> run[k].current == current && run[k].now == now)
    && (forall k :: 0 <= k < |run| ==> run[k].killed == Unusable(start, run[k].chosen))
    && (forall k :: 0 <= k < |run| - 1 ==> run[k].killed && !start[run[k].chosen].initial)
  }

  /** What the loop has picked so far, all of it killed, leads from `start` to `slots`. */
  ghost predicate Follow(run: seq<Decision>, start: seq<Slot>, slots: seq<Slot>, current: int, now: nat, wakes: Wakes) {
    && slots == SlotsAfter(start, run, wakes, now)
    && (run != [] ==> IsCall(run, start, current, now, wakes))
    && forall k :: 0 <= k < |run| ==> run[k].killed && Unusable(start, run[k].chosen) && !start[run[k].chosen].initial
  }

  lemma SeesNext(run: seq<Decision>, start: seq<Slot>, slots: seq<Slot>, d: Decision, now: nat, wakes: Wakes)
    requires Sees(run, start, now, wakes) && slots == SlotsAfter(start, run, wakes, now) && d.es == Entries(slots)
    ensures Sees(run + [d], start, now, wakes)
  {
    hide SlotsAfter, Entries;
    var next := run + [d];
    forall k | 0 <= k < |next|
      ensures next[k].es == Entries(SlotsAfter(start, next[..k], wakes, now))
    {
      if k < |run| {
        assert next[..k] == run[..k] && next[k] == run[k];
      } else {
        assert next[..k] == run;
      }
    }
  }

  lemma ScheduleNext(run: seq<Decision>, d: Decision)
    requires IsSchedule(run) && IsPick(d.es, d.current, d.now, d.chosen)
    requires run != [] ==> Follows(run[|run| - 1], d)
    ensures IsSchedule(run + [d])
  {
    hide IsPick, Follows;
    var next := run + [d];
    assert forall k :: 0 <= k < |run| ==> next[k] == run[k];
    forall k | 0 <= k < |next| - 1
      ensures Follows(next[k], next[k + 1])
    {
      if k + 1 < |run| {
        assert Follows(run[k], run[k + 1]);
      }
    }
  }

  lemma SeenSize(run: seq<Decision>, start: seq<Slot>, now: nat, wakes: Wakes, k: nat)
    requires Sees(run, start, now, wakes) && k < |run|
    ensures |run[k].es| == |start|
  {
    hide SlotsAfter;
  }

  lemma FollowStep(run: seq<Decision>, start: seq<Slot>, slots: seq<Slot>, d: Decision, wakes: Wakes)
    requires IsPick(d.es, d.current, d.now, d.chosen) && d.es == Entries(slots)
    requires Follow(run, start, slots, d.current, d.now, wakes) && d.killed == Unusable(slots, d.chosen)
    ensures IsCall(run + [d], start, d.current, d.now, wakes) && (run + [d])[..|run|] == run
  {
    hide IsPick, IsSchedule, SlotsAfter, Sees;
    assert run == [] ==> IsSchedule(run) && Sees(run, start, d.now, wakes) by { NothingPicked(start, d.now, wakes); }
    SeesNext(run, start, slots, d, d.now, wakes);
    if run != [] {
      SeenSize(run, start, d.now, wakes, |run| - 1);
    }
    ScheduleNext(run, d);
    assert forall k :: 0 <= k < |run| ==> (run + [d])[k] == run[k];
  }

  lemma NothingPicked(start: seq<Slot>, now: nat, wakes: Wakes)
    ensures IsSchedule([]) && Sees([], start, now, wakes)
  {
  }

  lemma FollowKill(run: seq<Decision>, start: seq<Slot>, slots: seq<Slot>, d: Decision, wakes: Wakes)
    requires Follow(run, start, slots, d.current, d.now, wakes) && IsCall(run + [d], start, d.current, d.now, wakes)
    requires d.killed && 0 <= d.chosen < |slots| && Unusable(start, d.chosen) && !start[d.chosen].initial
    ensures Follow(run + [d], start, Killed(slots, d.chosen, wakes(|run|), d.now), d.current, d.now, wakes)
  {
    hide IsCall, Killed;
    assert (run + [d])[..|run|] == run;
  }

  lemma PickFacts(es: seq<Entry>, current: int, now: nat, r: int)
    requires IsPick(es, current, now, r)
    ensures -1 <= r < |es|
    ensures r >= 0 ==> Eligible(es[r])
    ensures r == -1 ==> forall i :: 0 <= i < |es| ==> !Eligible(es[i])
  {
  }
}
