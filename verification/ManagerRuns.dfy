/** Every run of the module manager keeps its ledger balanced. */
module ManagerRuns {
  import opened Manager

  // --------------------------------------------------------------- counting

  lemma {:induction false} DependentsSame(a: seq<Module>, b: seq<Module>, p: nat, n: nat)
    requires n <= |a| && n <= |b|
    requires forall k :: 0 <= k < n ==> DependsOn(a[k], p) == DependsOn(b[k], p)
    ensures Dependents(a, p, n) == Dependents(b, p, n)
  {
    if n > 0 {
      DependentsSame(a, b, p, n - 1);
    }
  }

  lemma {:induction false} DependentsUpdate(a: seq<Module>, b: seq<Module>, i: nat, p: nat, n: nat)
    requires |a| == |b| && i < |a| && n <= |a|
    requires forall k :: 0 <= k < |a| && k != i ==> DependsOn(a[k], p) == DependsOn(b[k], p)
    ensures Dependents(b, p, n) == Dependents(a, p, n)
              - (if i < n && DependsOn(a[i], p) then 1 else 0) + (if i < n && DependsOn(b[i], p) then 1 else 0)
  {
    if n > 0 {
      DependentsUpdate(a, b, i, p, n - 1);
    }
  }

  lemma {:induction false} DependentCounts(ms: seq<Module>, p: nat, k: nat, n: nat)
    requires k < n <= |ms| && DependsOn(ms[k], p)
    ensures Dependents(ms, p, n) >= 1
  {
    if k < n - 1 {
      DependentCounts(ms, p, k, n - 1);
    }
  }

  /** A provider nobody leases has no running dependents. */
  lemma Unleased(l: Ledger, ext: External, p: nat, k: nat)
    requires Shape(l) && |ext| == |l.modules| && Balanced(l, ext) && p < |l.modules| && k < |l.modules|
    requires Lease(l.modules[p]) == 0
    ensures !DependsOn(l.modules[k], p)
  {
    if DependsOn(l.modules[k], p) {
      DependentCounts(l.modules, p, k, |l.modules|);
    }
  }

  // ------------------------------------------------------------- each event

  /** Changing a module that is not running into one that is not running. */
  lemma ReplaceIdle(l: Ledger, ext: External, i: nat, x: Module, next: nat)
    requires Inv(l, ext) && i < |l.modules| && !Running(l.modules[i]) && !Running(x) && next >= l.next
    requires |x.resources| == RESOURCES && x.bound.Keys == x.deps && Lease(x) == 0
    requires x.generation <= next && (!Vacant(x) ==> x.generation != 0)
    requires forall j :: j in x.deps ==> j < |l.modules| && x.bound[j] < x.generation
    ensures Inv(Ledger(l.modules[i := x], next), ext)
  {
    hide Dependents;
    var r := Ledger(l.modules[i := x], next);
    forall p | 0 <= p < |r.modules|
      ensures Lease(r.modules[p]) == Dependents(r.modules, p, |r.modules|) + ext[p]
    {
      DependentsSame(l.modules, r.modules, p, |l.modules|);
    }
    forall a, j | 0 <= a < |r.modules| && Running(r.modules[a]) && j in r.modules[a].deps
      ensures BoundOk(r, a, j)
    {
      assert BoundOk(l, a, j);
    }
  }

  lemma AddKeeps(l: Ledger, ext: External, named: bool, deps: set<nat>, pinned: bool)
    requires Inv(l, ext)
    ensures Inv(Add(l, named, deps, pinned).0, ext)
  {
    hide Balanced, ProvidersRun, FirstVacant;
    if Add(l, named, deps, pinned).1.Ok? {
      ReplaceIdle(l, ext, FirstVacant(l.modules), Fresh(l, deps, pinned), l.next + 1);
    }
  }

  /** Active and draining modules are interchangeable for the ledger. */
  lemma DrainKeeps(l: Ledger, ext: External, i: nat, s: State)
    requires Inv(l, ext) && i < |l.modules| && Running(l.modules[i]) && (s.Active? || s.Draining?)
    ensures Inv(SetState(l, i, s), ext)
  {
    hide Dependents, Balanced;
    var r := SetState(l, i, s);
    forall p: nat | p < |r.modules|
      ensures Lease(r.modules[p]) == Dependents(r.modules, p, |r.modules|) + ext[p]
    {
      BalancedAt(l, ext, p);
      DependentsSame(l.modules, r.modules, p, |l.modules|);
    }
    BalancedIs(r, ext);
    forall a, j | 0 <= a < |r.modules| && Running(r.modules[a]) && j in r.modules[a].deps
      ensures BoundOk(r, a, j)
    {
      assert BoundOk(l, a, j);
    }
  }

  lemma ResourceKeeps(l: Ledger, ext: External, i: nat, r: nat, n: nat, m: nat)
    requires Inv(l, ext) && i < |l.modules| && r < RESOURCES && Running(l.modules[i])
    requires r == LEASE ==> n - l.modules[i].resources[LEASE] == m - ext[i]
    requires r != LEASE ==> m == ext[i]
    ensures Inv(SetResource(l, i, r, n), ext[i := m])
  {
    hide Dependents;
    var k := SetResource(l, i, r, n);
    forall p | 0 <= p < |k.modules|
      ensures Lease(k.modules[p]) == Dependents(k.modules, p, |k.modules|) + ext[i := m][p]
    {
      DependentsSame(l.modules, k.modules, p, |l.modules|);
    }
    forall a, j | 0 <= a < |k.modules| && Running(k.modules[a]) && j in k.modules[a].deps
      ensures BoundOk(k, a, j)
    {
      assert BoundOk(l, a, j);
    }
  }

  lemma ReleaseKeeps(l: Ledger, ext: External, ev: Event)
    requires Inv(l, ext) && ev.Releases? && Disciplined(l, ext, ev)
    ensures Inv(Next(l, ev).0, NextExternal(l, ext, ev))
  {
    hide Balanced, ProvidersRun, GenerationsFall;
    if Next(l, ev).1.Ok? {
      var i, r := ev.i, ev.r;
      var n := l.modules[i].resources[r] - 1;
      if Running(l.modules[i]) {
        ResourceKeeps(l, ext, i, r, n, if r == LEASE then ext[i] - 1 else ext[i]);
        assert r != LEASE ==> ext[i := ext[i]] == ext;
      } else {
        ReplaceIdleResource(l, ext, i, r, n);
      }
    }
  }

  lemma ReplaceIdleResource(l: Ledger, ext: External, i: nat, r: nat, n: nat)
    requires Inv(l, ext) && i < |l.modules| && r < RESOURCES && !Running(l.modules[i]) && r != LEASE
    ensures Inv(SetResource(l, i, r, n), ext)
  {
    hide Balanced, ProvidersRun;
    ReplaceIdle(l, ext, i, l.modules[i].(resources := l.modules[i].resources[r := n]), l.next);
  }

  lemma {:induction false} StartOkMeans(l: Ledger, i: nat, n: nat)
    requires Shape(l) && i < |l.modules| && n <= |l.modules| && StartError(l, i, n).Ok?
    ensures forall j :: 0 <= j < n && j in l.modules[i].deps ==> ProviderReady(l, i, j)
    decreases n
  {
    if n > 0 {
      StartOkMeans(l, i, n - 1);
    }
  }

  /** Module `i` may join or leave the running set. */
  ghost predicate MayShift(l: Ledger, ext: External, i: nat, up: bool) {
    && Inv(l, ext) && i < |l.modules| && i !in l.modules[i].deps
    && Running(l.modules[i]) == !up && !Vacant(l.modules[i])
    && (if up then forall j :: 0 <= j < |l.modules| && j in l.modules[i].deps ==> ProviderReady(l, i, j)
        else Lease(l.modules[i]) == 0
             && forall j :: 0 <= j < |l.modules| && j in l.modules[i].deps ==> Lease(l.modules[j]) > 0)
  }

  /** What the move does to one module, which is the one moving or perhaps its provider. */
  function ShiftedAt(x: Module, moving: bool, provider: bool, up: bool): (y: Module)
    requires |x.resources| == RESOURCES && (provider && !up ==> Lease(x) > 0)
    ensures |y.resources| == RESOURCES && y.deps == x.deps && y.bound == x.bound
    ensures SameButLease(if moving then x.(state := y.state) else x, y)
    ensures moving ==> y.state == if up then Active else Stopped
    ensures Lease(y) == Lease(x) + (if !provider then 0 else if up then 1 else -1)
  {
    var y := Adjusted(x, provider, up);
    if moving then y.(state := if up then Active else Stopped) else y
  }

  function Shifted(l: Ledger, i: nat, up: bool): (r: Ledger)
    requires Shape(l) && i < |l.modules|
    requires !up ==> forall j :: 0 <= j < |l.modules| && j in l.modules[i].deps ==> Lease(l.modules[j]) > 0
    ensures |r.modules| == |l.modules| && r.next == l.next && Shape(r)
    ensures forall k :: 0 <= k < |l.modules| ==> r.modules[k] == ShiftedAt(l.modules[k], k == i, k in l.modules[i].deps, up)
  {
    hide Adjusted, Adjust, SameButLease;
    var ms := Adjust(l.modules, l.modules[i].deps, up);
    l.(modules := ms[i := ms[i].(state := if up then Active else Stopped)])
  }

  lemma ShiftBalances(l: Ledger, ext: External, i: nat, up: bool)
    requires MayShift(l, ext, i, up)
    ensures Balanced(Shifted(l, i, up), ext)
  {
    hide Dependents, ProvidersRun, GenerationsFall, Idle, Shifted, Balanced;
    var r := Shifted(l, i, up);
    forall p: nat | p < |r.modules|
      ensures Lease(r.modules[p]) == Dependents(r.modules, p, |r.modules|) + ext[p]
    {
      BalancedAt(l, ext, p);
      forall k | 0 <= k < |l.modules| && k != i
        ensures DependsOn(l.modules[k], p) == DependsOn(r.modules[k], p)
      {
        assert SameButLease(l.modules[k], r.modules[k]);
      }
      DependentsUpdate(l.modules, r.modules, i, p, |l.modules|);
    }
    BalancedIs(r, ext);
  }

  lemma BalancedAt(l: Ledger, ext: External, p: nat)
    requires Shape(l) && |ext| == |l.modules| && Balanced(l, ext) && p < |l.modules|
    ensures Lease(l.modules[p]) == Dependents(l.modules, p, |l.modules|) + ext[p]
  {
  }

  lemma BalancedIs(l: Ledger, ext: External)
    requires Shape(l) && |ext| == |l.modules|
    requires forall p: nat :: p < |l.modules| ==> Lease(l.modules[p]) == Dependents(l.modules, p, |l.modules|) + ext[p]
    ensures Balanced(l, ext)
  {
  }

  lemma ShiftProviders(l: Ledger, ext: External, i: nat, up: bool)
    requires MayShift(l, ext, i, up)
    ensures ProvidersRun(Shifted(l, i, up))
  {
    hide Balanced, GenerationsFall, Idle, Shifted;
    var r := Shifted(l, i, up);
    forall a, j | 0 <= a < |r.modules| && Running(r.modules[a]) && j in r.modules[a].deps
      ensures BoundOk(r, a, j)
    {
      assert j != i ==> SameButLease(l.modules[j], r.modules[j]);
      if a == i {
        assert ProviderReady(l, i, j);
      } else {
        assert SameButLease(l.modules[a], r.modules[a]);
        assert BoundOk(l, a, j);
        if !up {
          Unleased(l, ext, i, a);
        }
      }
    }
  }

  lemma ShiftIdle(l: Ledger, ext: External, i: nat, up: bool)
    requires MayShift(l, ext, i, up)
    ensures Idle(Shifted(l, i, up), ext)
  {
    hide Balanced, GenerationsFall, Shifted;
    var r := Shifted(l, i, up);
    forall p | 0 <= p < |l.modules| && p in l.modules[i].deps
      ensures Running(l.modules[p])
    {
      if up {
        assert ProviderReady(l, i, p);
      } else {
        assert BoundOk(l, i, p);
      }
    }
    forall p | 0 <= p < |l.modules| && p != i
      ensures Running(r.modules[p]) == Running(l.modules[p])
    {
      assert SameButLease(l.modules[p], r.modules[p]);
    }
  }

  lemma ShiftGenerations(l: Ledger, ext: External, i: nat, up: bool)
    requires MayShift(l, ext, i, up)
    ensures GenerationsFall(Shifted(l, i, up))
    ensures forall k, j :: 0 <= k < |l.modules| && j in Shifted(l, i, up).modules[k].deps ==> j < |l.modules|
  {
    hide Balanced, ProvidersRun, Idle, Shifted;
    var r := Shifted(l, i, up);
    forall k | 0 <= k < |l.modules|
      ensures r.modules[k].generation == l.modules[k].generation && r.modules[k].deps == l.modules[k].deps
      ensures r.modules[k].bound == l.modules[k].bound
      ensures Vacant(r.modules[k]) == Vacant(l.modules[k])
    {
      assert k != i ==> SameButLease(l.modules[k], r.modules[k]);
    }
  }

  /** Moving one module into or out of the running set, with its leases. */
  lemma ShiftKeeps(l: Ledger, ext: External, i: nat, up: bool)
    requires MayShift(l, ext, i, up)
    ensures Inv(Shifted(l, i, up), ext)
  {
    hide Balanced, ProvidersRun, Idle, GenerationsFall, Shifted;
    ShiftBalances(l, ext, i, up);
    ShiftProviders(l, ext, i, up);
    ShiftIdle(l, ext, i, up);
    ShiftGenerations(l, ext, i, up);
  }

  lemma StartKeeps(l: Ledger, ext: External, i: nat)
    requires Inv(l, ext)
    ensures Inv(Start(l, i).0, ext)
  {
    hide Balanced, ProvidersRun, Idle, GenerationsFall;
    if Start(l, i).1.Ok? {
      StartOkMeans(l, i, |l.modules|);
      ShiftKeeps(l, ext, i, true);
    }
  }

  /** In a balanced ledger the checks that precede a stop always pass. */
  lemma {:induction false} StopNeverMalformed(l: Ledger, ext: External, i: nat, n: nat)
    requires Inv(l, ext) && i < |l.modules| && Running(l.modules[i]) && n <= |l.modules|
    ensures StopError(l, i, n).Ok?
    decreases n
  {
    hide Dependents;
    if n > 0 {
      StopNeverMalformed(l, ext, i, n - 1);
      if n - 1 in l.modules[i].deps {
        assert BoundOk(l, i, n - 1);
        DependentCounts(l.modules, n - 1, i, |l.modules|);
      }
    }
  }

  lemma StopKeeps(l: Ledger, ext: External, i: nat)
    requires Inv(l, ext)
    ensures Inv(Stop(l, i).0, ext)
  {
    hide Balanced, Idle, Dependents;
    if Stop(l, i).1.Ok? {
      StopOkMeans(l, i, |l.modules|);
      NoSelfLease(l, ext, i);
      ShiftKeeps(l, ext, i, false);
    }
  }

  lemma NoSelfLease(l: Ledger, ext: External, i: nat)
    requires Inv(l, ext) && i < |l.modules| && Running(l.modules[i])
    ensures i !in l.modules[i].deps
  {
    assert i in l.modules[i].deps ==> BoundOk(l, i, i);
  }

  lemma NextKeeps(l: Ledger, ext: External, ev: Event)
    requires Inv(l, ext) && Disciplined(l, ext, ev)
    ensures Inv(Next(l, ev).0, NextExternal(l, ext, ev))
  {
    hide Balanced, ProvidersRun, Idle, GenerationsFall, Add, Start, Stop;
    match ev
    case Adds(named, deps, pinned) => AddKeeps(l, ext, named, deps, pinned);
    case Starts(i) => StartKeeps(l, ext, i);
    case Stops(i) => StopKeeps(l, ext, i);
    case Releases(_, _) => ReleaseKeeps(l, ext, ev);
    case Acquires(i, r) =>
      if Next(l, ev).1.Ok? {
        ResourceKeeps(l, ext, i, r, l.modules[i].resources[r] + 1, if r == LEASE then ext[i] + 1 else ext[i]);
        assert r != LEASE ==> ext[i := ext[i]] == ext;
      }
    case Prepares(i) =>
      if Next(l, ev).1.Ok? {
        DrainKeeps(l, ext, i, Draining);
      }
    case Cancels(i) =>
      if Next(l, ev).1.Ok? {
        DrainKeeps(l, ext, i, Active);
      }
    case Unloads(i) =>
      if Next(l, ev).1.Ok? {
        UnloadKeeps(l, ext, i);
      }
  }

  lemma UnloadKeeps(l: Ledger, ext: External, i: nat)
    requires Inv(l, ext) && i < |l.modules| && l.modules[i].state.Stopped?
    ensures Inv(SetState(l, i, Unloaded), ext)
  {
    hide Balanced, ProvidersRun;
    ReplaceIdle(l, ext, i, l.modules[i].(state := Unloaded), l.next);
  }

  // ---------------------------------------------------------------- the runs

  lemma {:induction false} NoDependents(slots: nat, p: nat, n: nat)
    requires n <= slots
    ensures Dependents(Zeroed(slots).modules, p, n) == 0
  {
    if n > 0 {
      NoDependents(slots, p, n - 1);
    }
  }

  /** The manager as zero-initialised satisfies the invariant. */
  lemma ZeroedInv(slots: nat)
    ensures Inv(Zeroed(slots), seq(slots, _ => 0))
  {
    hide Dependents;
    forall p: nat | p < slots
      ensures Dependents(Zeroed(slots).modules, p, slots) == 0
    {
      NoDependents(slots, p, slots);
    }
  }

  /** A run of a manager with `slots` slots from its zero-initialised state. */
  ghost predicate IsRun(slots: nat, run: seq<Ledger>, exts: seq<External>, evs: seq<Event>) {
    && |run| == |exts| == |evs| + 1 && run[0] == Zeroed(slots) && exts[0] == seq(slots, _ => 0)
    && forall n {:trigger evs[n]} :: 0 <= n < |evs| ==> IsStep(run[n], exts[n], evs[n], run[n + 1], exts[n + 1])
  }

  ghost predicate IsStep(l: Ledger, ext: External, ev: Event, m: Ledger, after: External) {
    && Shape(l) && |ext| == |l.modules| && Disciplined(l, ext, ev)
    && m == Next(l, ev).0 && after == NextExternal(l, ext, ev)
  }

  lemma {:induction false} RunInv(slots: nat, run: seq<Ledger>, exts: seq<External>, evs: seq<Event>, n: nat)
    requires IsRun(slots, run, exts, evs) && n < |run|
    ensures Inv(run[n], exts[n])
  {
    hide Inv, Next, NextExternal, Disciplined;
    if n == 0 {
      ZeroedInv(slots);
    } else {
      RunInv(slots, run, exts, evs, n - 1);
      assert IsStep(run[n - 1], exts[n - 1], evs[n - 1], run[n], exts[n]);
      NextKeeps(run[n - 1], exts[n - 1], evs[n - 1]);
    }
  }

  /**
   In every run in which clients release only what they hold: leases are exactly
   the running dependents plus the clients' own, every running module's providers
   run at the bound generation, and a stop is refused only for resources in use.
   */
  lemma LedgerIsExact(slots: nat, run: seq<Ledger>, exts: seq<External>, evs: seq<Event>, n: nat)
    requires IsRun(slots, run, exts, evs) && n < |run|
    ensures var l, ext := run[n], exts[n];
            && Shape(l) && |ext| == |l.modules|
            && (forall p :: 0 <= p < |l.modules| ==> Lease(l.modules[p]) == Dependents(l.modules, p, |l.modules|) + ext[p])
            && (forall i, j :: 0 <= i < |l.modules| && Running(l.modules[i]) && j in l.modules[i].deps ==> BoundOk(l, i, j))
            && (forall i: nat :: i < |l.modules| && l.modules[i].state.Draining? ==>
                  (Stop(l, i).1.Ok? <==> forall r :: 0 <= r < RESOURCES ==> l.modules[i].resources[r] == 0))
  {
    hide Dependents, Next, StopError, FirstHeld;
    RunInv(slots, run, exts, evs, n);
    var l, ext := run[n], exts[n];
    forall i: nat | i < |l.modules| && l.modules[i].state.Draining?
      ensures Stop(l, i).1.Ok? <==> forall r :: 0 <= r < RESOURCES ==> l.modules[i].resources[r] == 0
    {
      StopNeverMalformed(l, ext, i, |l.modules|);
    }
  }

  // ------------------------------------------------------------- acyclicity

  /** Each module of the walk is running and depends on the next one. */
  ghost predicate RunningWalk(l: Ledger, walk: seq<nat>) {
    && (forall k :: 0 <= k < |walk| ==> walk[k] < |l.modules|)
    && (forall k :: 0 <= k < |walk| - 1 ==> DependsOn(l.modules[walk[k]], walk[k + 1]))
  }

  lemma {:induction false} WalkDescends(l: Ledger, ext: External, walk: seq<nat>, k: nat)
    requires Inv(l, ext) && RunningWalk(l, walk) && 1 <= k < |walk|
    ensures l.modules[walk[k]].generation < l.modules[walk[0]].generation
  {
    hide Balanced, Idle;
    assert DependsOn(l.modules[walk[k - 1]], walk[k]) && BoundOk(l, walk[k - 1], walk[k]);
    if k > 1 {
      WalkDescends(l, ext, walk, k - 1);
    }
  }

  /** Running dependencies never form a cycle. */
  lemma RunningIsAcyclic(slots: nat, run: seq<Ledger>, exts: seq<External>, evs: seq<Event>, n: nat, walk: seq<nat>)
    requires IsRun(slots, run, exts, evs) && n < |run| && RunningWalk(run[n], walk) && |walk| >= 2
    ensures walk[0] != walk[|walk| - 1]
  {
    hide Inv, Next;
    RunInv(slots, run, exts, evs, n);
    WalkDescends(run[n], exts[n], walk, |walk| - 1);
  }

  /** An addition takes the first vacant slot. */
  lemma AddsAt(l: Ledger, i: nat, deps: set<nat>)
    requires Shape(l) && i < |l.modules| && Vacant(l.modules[i]) && forall k :: 0 <= k < i ==> !Vacant(l.modules[k])
    requires DepsRegistered(l, deps) && l.next < U32_MAX
    ensures Add(l, true, deps, false).0 == Ledger(l.modules[i := Fresh(l, deps, false)], l.next + 1)
    ensures Shape(Add(l, true, deps, false).0)
  {
    hide FirstVacant;
  }

  /** The second of two slots depends on the first, which has been started. */
  ghost predicate Leaning(l: Ledger, first: State) {
    && Shape(l) && |l.modules| == 2 && l.next == 2
    && l.modules[0].state == first && l.modules[0].deps == {} && !l.modules[0].pinned
    && l.modules[0].resources == seq(RESOURCES, _ => 0)
    && l.modules[1].deps == {0} && Registered(l.modules[1])
  }

  lemma AddsTwo(slots: nat)
    requires slots == 2
    ensures Leaning(Add(Add(Zeroed(slots), true, {}, false).0, true, {0}, false).0, Verified)
  {
    hide Add;
    AddsAt(Zeroed(slots), 0, {});
    AddsAt(Add(Zeroed(slots), true, {}, false).0, 1, {0});
  }

  lemma RunsFirst(l: Ledger)
    requires Leaning(l, Verified)
    ensures Leaning(Start(l, 0).0, Active)
    ensures Leaning(Prepare(Start(l, 0).0, 0).0, Draining)
  {
    hide Start;
    NoDepsStart(l, 0);
  }

  lemma StopsFirst(l: Ledger)
    requires Leaning(l, Draining)
    ensures Leaning(Stop(l, 0).0, Stopped)
    ensures Leaning(Unload(Stop(l, 0).0, 0).0, Unloaded)
  {
    hide Stop;
    NoDepsStop(l, 0);
  }

  /** Some run of a manager with `slots` slots ends in `l`. */
  ghost predicate Reachable(slots: nat, l: Ledger) {
    exists run: seq<Ledger>, exts: seq<External>, evs: seq<Event> :: IsRun(slots, run, exts, evs) && run[|run| - 1] == l
  }

  lemma ReachableNext(slots: nat, l: Ledger, ev: Event)
    requires Reachable(slots, l) && Shape(l) && !ev.Releases?
    ensures Reachable(slots, Next(l, ev).0)
  {
    hide Next, NextExternal, Inv;
    var run, exts, evs :| IsRun(slots, run, exts, evs) && run[|run| - 1] == l;
    RunInv(slots, run, exts, evs, |run| - 1);
    InvShape(l, exts[|run| - 1]);
    var ext := exts[|run| - 1];
    ExtendedRun(slots, run, exts, evs, ev, Next(l, ev).0, NextExternal(l, ext, ev));
  }

  lemma ExtendedRun(slots: nat, run: seq<Ledger>, exts: seq<External>, evs: seq<Event>, ev: Event, m: Ledger, after: External)
    requires IsRun(slots, run, exts, evs) && IsStep(run[|run| - 1], exts[|run| - 1], ev, m, after)
    ensures Reachable(slots, m)
  {
    hide IsStep;
    var longer, more, all := run + [m], exts + [after], evs + [ev];
    forall n {:trigger all[n]} | 0 <= n < |all|
      ensures IsStep(longer[n], more[n], all[n], longer[n + 1], more[n + 1])
    {
      assert n < |evs| ==> all[n] == evs[n];
    }
    assert longer[|longer| - 1] == m;
    assert IsRun(slots, longer, more, all);
  }

  lemma InvShape(l: Ledger, ext: External)
    requires Inv(l, ext)
    ensures Shape(l) && |ext| == |l.modules|
  {
  }

  lemma ReachableZeroed(slots: nat)
    ensures Reachable(slots, Zeroed(slots))
  {
    assert IsRun(slots, [Zeroed(slots)], [seq(slots, _ => 0)], []);
  }

  lemma ReachesLeaning()
    ensures exists l :: Reachable(2, l) && Leaning(l, Verified)
  {
    hide Add, Reachable, IsRun;
    var z := Zeroed(2);
    ReachableZeroed(2);
    AddsAt(z, 0, {});
    ReachableNext(2, z, Adds(true, {}, false));
    ReachableNext(2, Add(z, true, {}, false).0, Adds(true, {0}, false));
    AddsTwo(2);
  }

  lemma ReachesUnloaded(l: Ledger)
    requires Reachable(2, l) && Leaning(l, Verified)
    ensures exists u :: Reachable(2, u) && Leaning(u, Unloaded)
  {
    hide Start, Prepare, Stop, Unload, Reachable;
    RunsFirst(l);
    ReachableNext(2, l, Starts(0));
    var c := Start(l, 0).0;
    ReachableNext(2, c, Prepares(0));
    var p := Prepare(c, 0).0;
    StopsFirst(p);
    ReachableNext(2, p, Stops(0));
    ReachableNext(2, Stop(p, 0).0, Unloads(0));
  }

  /** Slot reuse alone can make the declared dependencies of a reachable manager cyclic. */
  lemma DeclaredCanBeCyclic()
    ensures exists l :: Reachable(2, l) && |l.modules| == 2 && 1 in l.modules[0].deps && 0 in l.modules[1].deps
  {
    hide Add, Reachable;
    ReachesLeaning();
    var l :| Reachable(2, l) && Leaning(l, Verified);
    ReachesUnloaded(l);
    var u :| Reachable(2, u) && Leaning(u, Unloaded);
    AddsAt(u, 0, {1});
    ReachableNext(2, u, Adds(true, {1}, false));
  }

  lemma {:induction false} NoDepsErrors(l: Ledger, i: nat, n: nat)
    requires Shape(l) && i < |l.modules| && n <= |l.modules| && l.modules[i].deps == {}
    ensures StartError(l, i, n).Ok? && StopError(l, i, n).Ok?
  {
    if n > 0 {
      NoDepsErrors(l, i, n - 1);
    }
  }

  lemma NoDepsStart(l: Ledger, i: nat)
    requires Shape(l) && i < |l.modules| && l.modules[i].deps == {} && l.modules[i].state.Verified?
    ensures Start(l, i).0.modules == l.modules[i := l.modules[i].(state := Active)]
    ensures Start(l, i).0.next == l.next && Shape(Start(l, i).0)
  {
    NoDepsErrors(l, i, |l.modules|);
    assert Adjust(l.modules, {}, true) == l.modules;
  }

  lemma NoDepsStop(l: Ledger, i: nat)
    requires Shape(l) && i < |l.modules| && l.modules[i].deps == {} && l.modules[i].state.Draining?
    requires forall r :: 0 <= r < RESOURCES ==> l.modules[i].resources[r] == 0
    ensures Stop(l, i).0.modules == l.modules[i := l.modules[i].(state := Stopped)]
    ensures Stop(l, i).0.next == l.next && Shape(Stop(l, i).0)
  {
    hide FirstHeld;
    NoDepsErrors(l, i, |l.modules|);
    StopOkMeans(l, i, |l.modules|);
    assert Adjust(l.modules, {}, false) == l.modules;
  }
}
