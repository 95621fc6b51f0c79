/** When each manager operation succeeds, what it then changes, and what pinning guarantees. */
module ManagerLaws {
  import opened Manager
  import opened ManagerRuns

  /** The ledgers agree on every module but `i`. */
  ghost predicate OnlyAt(l: Ledger, r: Ledger, i: nat) {
    |r.modules| == |l.modules| && forall k :: 0 <= k < |l.modules| && k != i ==> r.modules[k] == l.modules[k]
  }

  ghost predicate IsRegistered(x: Module) {
    x.generation != 0 && (x.state.Verified? || x.state.Active? || x.state.Draining? || x.state.Stopped?)
  }

  /** Registration needs a name, registered providers, a generation left and a vacant slot. */
  ghost predicate MayAdd(l: Ledger, named: bool, deps: set<nat>) {
    && named && (forall j :: j in deps ==> j < |l.modules| && IsRegistered(l.modules[j])) && l.next != 0xffff_ffff
    && exists i :: 0 <= i < |l.modules| && (l.modules[i].state.Discovered? || l.modules[i].state.Unloaded?)
  }

  lemma AddExact(l: Ledger, named: bool, deps: set<nat>, pinned: bool)
    requires Shape(l)
    ensures var (r, v) := Add(l, named, deps, pinned);
            && (v.Ok? <==> MayAdd(l, named, deps)) && (!v.Ok? ==> r == l)
            && (v.Ok? ==>
                  && v.value < |l.modules| && (l.modules[v.value].state.Discovered? || l.modules[v.value].state.Unloaded?)
                  && (forall k :: 0 <= k < v.value ==> !(l.modules[k].state.Discovered? || l.modules[k].state.Unloaded?))
                  && OnlyAt(l, r, v.value) && r.next == l.next + 1
                  && var x := r.modules[v.value];
                     && x.generation == l.next + 1 && x.state == Verified && x.pinned == pinned && x.deps == deps
                     && (forall n :: 0 <= n < |x.resources| ==> x.resources[n] == 0)
                     && forall j :: j in deps ==> j in x.bound && x.bound[j] == l.modules[j].generation)
  {
    hide FirstVacant;
    assert forall j :: 0 <= j < |l.modules| ==> Registered(l.modules[j]) == IsRegistered(l.modules[j]);
    assert forall j :: 0 <= j < |l.modules| ==> Vacant(l.modules[j]) == (l.modules[j].state.Discovered? || l.modules[j].state.Unloaded?);
  }

  /** A start needs every provider running, at the generation it was bound to, with a lease left. */
  ghost predicate MayStart(l: Ledger, i: nat)
    requires Shape(l)
  {
    && i < |l.modules| && (l.modules[i].state.Verified? || l.modules[i].state.Stopped?)
    && forall j :: j in l.modules[i].deps ==>
         && j < |l.modules| && j != i && l.modules[j].state.Active? && l.modules[j].generation == l.modules[i].bound[j]
         && l.modules[j].resources[0] != 0xffff_ffff
  }

  lemma {:induction false} StartErrorExact(l: Ledger, i: nat, n: nat)
    requires Shape(l) && i < |l.modules| && n <= |l.modules|
    ensures StartError(l, i, n).Ok? <==>
              forall j :: 0 <= j < n && j in l.modules[i].deps ==> ProviderReady(l, i, j) && l.modules[j].resources[0] != 0xffff_ffff
    decreases n
  {
    if n > 0 {
      StartErrorExact(l, i, n - 1);
    }
  }

  ghost predicate OneLease(before: nat, after: nat, provider: bool, up: bool) {
    if !provider then after == before else if up then after == before + 1 else after + 1 == before
  }

  /** Each provider has one more lease, or one fewer; the module has changed state; nothing else changed. */
  ghost predicate Moved(l: Ledger, r: Ledger, i: nat, up: bool) {
    && Shape(l) && Shape(r) && i < |l.modules| == |r.modules| && r.next == l.next
    && r.modules[i].state == (if up then Active else Stopped)
    && forall k :: 0 <= k < |l.modules| ==>
         && r.modules[k] == l.modules[k].(state := r.modules[k].state, resources := r.modules[k].resources)
         && (k != i ==> r.modules[k].state == l.modules[k].state)
         && r.modules[k].resources[1..] == l.modules[k].resources[1..]
         && OneLease(l.modules[k].resources[0], r.modules[k].resources[0], k in l.modules[i].deps, up)
  }

  lemma AdjustedIs(x: Module, provider: bool, up: bool)
    requires |x.resources| == RESOURCES && (provider && !up ==> Lease(x) > 0)
    ensures var y := Adjusted(x, provider, up);
            && |y.resources| == RESOURCES && y == x.(resources := y.resources) && y.resources[1..] == x.resources[1..]
            && OneLease(x.resources[0], y.resources[0], provider, up)
  {
  }

  lemma AdjustMoves(l: Ledger, i: nat, up: bool)
    requires Shape(l) && i < |l.modules|
    requires !up ==> forall j :: 0 <= j < |l.modules| && j in l.modules[i].deps ==> Lease(l.modules[j]) > 0
    ensures var ms := Adjust(l.modules, l.modules[i].deps, up);
            Moved(l, l.(modules := ms[i := ms[i].(state := if up then Active else Stopped)]), i, up)
  {
    hide Adjusted, Adjust, SameButLease;
    forall k | 0 <= k < |l.modules|
      ensures var x, y := l.modules[k], Adjust(l.modules, l.modules[i].deps, up)[k];
              && |y.resources| == RESOURCES && y == x.(resources := y.resources) && y.resources[1..] == x.resources[1..]
              && OneLease(x.resources[0], y.resources[0], k in l.modules[i].deps, up)
    {
      AdjustedIs(l.modules[k], k in l.modules[i].deps, up);
    }
  }

  lemma StartExact(l: Ledger, i: nat)
    requires Shape(l)
    ensures var (r, v) := Start(l, i);
            (v.Ok? <==> MayStart(l, i)) && (!v.Ok? ==> r == l) && (v.Ok? ==> Moved(l, r, i, true))
  {
    hide StartError, Adjust, Moved;
    if i < |l.modules| {
      StartErrorExact(l, i, |l.modules|);
      AdjustMoves(l, i, true);
    }
  }

  /** In every run a stop of a draining module that holds nothing returns its leases and stops it; any other stop changes nothing. */
  lemma StopExact(slots: nat, run: seq<Ledger>, exts: seq<External>, evs: seq<Event>, n: nat, i: nat)
    requires IsRun(slots, run, exts, evs) && n < |run|
    ensures var l := run[n];
            && Shape(l)
            && var (r, v) := Stop(l, i);
               && (v.Ok? <==> i < |l.modules| && l.modules[i].state.Draining? && forall k :: 0 <= k < |l.modules[i].resources| ==> l.modules[i].resources[k] == 0)
               && (!v.Ok? ==> r == l) && (v.Ok? ==> Moved(l, r, i, false))
  {
    hide StopError, FirstHeld, Adjust, Moved, Next;
    LedgerIsExact(slots, run, exts, evs, n);
    var l := run[n];
    if i < |l.modules| && Stop(l, i).1.Ok? {
      StopOkMeans(l, i, |l.modules|);
      AdjustMoves(l, i, false);
    }
  }

  /** Draining is for modules in use that are not pinned, and can be undone; a stopped module can be unloaded. */
  lemma DrainExact(l: Ledger, i: nat)
    requires Shape(l) && i < |l.modules|
    ensures var (r, v) := Prepare(l, i);
            && (v.Ok? <==> l.modules[i].state.Active? && !l.modules[i].pinned) && OnlyAt(l, r, i)
            && r.modules[i] == if v.Ok? then l.modules[i].(state := Draining) else l.modules[i]
    ensures var (r, v) := CancelDrain(l, i);
            && (v.Ok? <==> l.modules[i].state.Draining?) && OnlyAt(l, r, i)
            && r.modules[i] == if v.Ok? then l.modules[i].(state := Active) else l.modules[i]
    ensures var (r, v) := Unload(l, i);
            && (v.Ok? <==> l.modules[i].state.Stopped?) && OnlyAt(l, r, i)
            && r.modules[i] == if v.Ok? then l.modules[i].(state := Unloaded) else l.modules[i]
    ensures CancelDrain(Prepare(l, i).0, i).0 == l || l.modules[i].state.Draining?
  {
  }

  /** Resources are taken only from a module in use and given back only if taken; giving back undoes taking. */
  lemma ResourcesExact(l: Ledger, i: nat, n: nat)
    requires Shape(l) && i < |l.modules| && n < RESOURCES
    ensures var (r, v) := Acquire(l, i, n);
            && (v.Ok? <==> l.modules[i].state.Active? && l.modules[i].resources[n] != 0xffff_ffff) && OnlyAt(l, r, i)
            && (v.Ok? ==> r.modules[i] == l.modules[i].(resources := l.modules[i].resources[n := l.modules[i].resources[n] + 1]))
            && (v.Ok? ==> Shape(r) && Release(r, i, n) == (l, Ok(0)))
    ensures Release(l, i, n).1.Ok? <==> l.modules[i].resources[n] != 0
  {
    var (r, v) := Acquire(l, i, n);
    if v.Ok? {
      assert l.modules[i].resources[n := l.modules[i].resources[n] + 1][n := l.modules[i].resources[n]] == l.modules[i].resources;
      assert Release(r, i, n).0.modules == l.modules;
    }
  }

  // ---------------------------------------------------------------- pinning

  ghost predicate PinnedStay(l: Ledger) {
    forall i :: 0 <= i < |l.modules| && l.modules[i].pinned ==> l.modules[i].state.Verified? || l.modules[i].state.Active?
  }

  /** A pinned module in use stays in use, at its generation, whatever happens. */
  lemma PinnedStep(l: Ledger, ev: Event, i: nat)
    requires Shape(l) && PinnedStay(l) && i < |l.modules|
    ensures PinnedStay(Next(l, ev).0) && |Next(l, ev).0.modules| == |l.modules|
    ensures l.modules[i].pinned && l.modules[i].state.Active? ==>
              var x := Next(l, ev).0.modules[i]; x.pinned && x.state.Active? && x.generation == l.modules[i].generation
  {
    hide Adjust, StartError, StopError, FirstHeld, FirstVacant;
    if ev.Starts? {
      StartExact(l, ev.i);
    } else if ev.Stops? {
      if Stop(l, ev.i).1.Ok? {
        StopOkMeans(l, ev.i, |l.modules|);
        AdjustMoves(l, ev.i, false);
      }
    }
  }

  lemma {:induction false} PinnedInRuns(slots: nat, run: seq<Ledger>, exts: seq<External>, evs: seq<Event>, n: nat)
    requires IsRun(slots, run, exts, evs) && n < |run|
    ensures PinnedStay(run[n]) && |run[n].modules| == slots
  {
    hide Next, NextExternal;
    if n > 0 && slots > 0 {
      PinnedInRuns(slots, run, exts, evs, n - 1);
      assert IsStep(run[n - 1], exts[n - 1], evs[n - 1], run[n], exts[n]);
      PinnedStep(run[n - 1], evs[n - 1], 0);
    } else if n > 0 {
      PinnedInRuns(slots, run, exts, evs, n - 1);
      assert IsStep(run[n - 1], exts[n - 1], evs[n - 1], run[n], exts[n]);
      NoSlots(run[n - 1], evs[n - 1]);
    }
  }

  lemma NoSlots(l: Ledger, ev: Event)
    requires Shape(l) && l.modules == []
    ensures Next(l, ev).0.modules == []
  {
  }

  /** In every run no pinned module ever drains or stops, and one that is in use stays in use. */
  lemma {:induction false} PinnedNeverDrains(slots: nat, run: seq<Ledger>, exts: seq<External>, evs: seq<Event>, n: nat, m: nat, i: nat)
    requires IsRun(slots, run, exts, evs) && n <= m < |run| && i < slots
    ensures |run[n].modules| == |run[m].modules| == slots
    ensures run[m].modules[i].pinned ==> !run[m].modules[i].state.Draining? && !run[m].modules[i].state.Stopped? && !run[m].modules[i].state.Unloaded?
    ensures run[n].modules[i].pinned && run[n].modules[i].state.Active? ==>
              run[m].modules[i].pinned && run[m].modules[i].state.Active? && run[m].modules[i].generation == run[n].modules[i].generation
    decreases m - n
  {
    hide Next, NextExternal;
    PinnedInRuns(slots, run, exts, evs, n);
    PinnedInRuns(slots, run, exts, evs, m);
    if n < m {
      PinnedNeverDrains(slots, run, exts, evs, n, m - 1, i);
      assert IsStep(run[m - 1], exts[m - 1], evs[m - 1], run[m], exts[m]);
      PinnedInRuns(slots, run, exts, evs, m - 1);
      PinnedStep(run[m - 1], evs[m - 1], i);
    }
  }
}
