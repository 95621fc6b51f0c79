/**
 The module manager's lease ledger: modules in reusable slots, each start taking
 one lease on every provider at the generation it was bound to.
 */
module Manager {

  const U32_MAX := 0xffff_ffff
  const LEASE := 0
  const RESOURCES := 10

  datatype State = Discovered | Verified | Active | Draining | Stopped | Unloaded

  datatype Module = Module(generation: nat, state: State, pinned: bool, deps: set<nat>,
                           resources: seq<nat>, bound: map<nat, nat>)

  datatype Ledger = Ledger(modules: seq<Module>, next: nat)

  datatype Result = Ok(value: nat) | Invalid | Dependency | NoSpace | IsDraining | Stale | Denied | Busy

  predicate Shape(l: Ledger) {
    forall i :: 0 <= i < |l.modules| ==> |l.modules[i].resources| == RESOURCES && l.modules[i].bound.Keys == l.modules[i].deps
  }

  /** A slot, and a manager with `slots` of them, as zero-initialised. */
  function ZeroedSlot(): Module { Module(0, Discovered, false, {}, seq(RESOURCES, _ => 0), map[]) }
  function Zeroed(slots: nat): Ledger { Ledger(seq(slots, _ => ZeroedSlot()), 0) }

  predicate Registered(x: Module) { x.generation != 0 && !x.state.Discovered? && !x.state.Unloaded? }
  predicate Vacant(x: Module) { x.state.Discovered? || x.state.Unloaded? }

  /** Between a successful start and the matching stop. */
  predicate Running(x: Module) { x.state.Active? || x.state.Draining? }

  predicate DepsRegistered(l: Ledger, deps: set<nat>) {
    forall j :: j in deps ==> j < |l.modules| && Registered(l.modules[j])
  }

  function FirstVacant(ms: seq<Module>): (i: nat)
    ensures i <= |ms| && (i < |ms| ==> Vacant(ms[i]))
    ensures forall k :: 0 <= k < i ==> !Vacant(ms[k])
  {
    if ms == [] || Vacant(ms[0]) then 0 else 1 + FirstVacant(ms[1..])
  }

  function Fresh(l: Ledger, deps: set<nat>, pinned: bool): Module
    requires DepsRegistered(l, deps)
  {
    Module(l.next + 1, Verified, pinned, deps, seq(RESOURCES, _ => 0), map j | j in deps :: l.modules[j].generation)
  }

  function Add(l: Ledger, named: bool, deps: set<nat>, pinned: bool): (Ledger, Result) {
    if !named then (l, Invalid)
    else if !DepsRegistered(l, deps) then (l, Dependency)
    else if l.next == U32_MAX || FirstVacant(l.modules) == |l.modules| then (l, NoSpace)
    else
      var i := FirstVacant(l.modules);
      (Ledger(l.modules[i := Fresh(l, deps, pinned)], l.next + 1), Ok(i))
  }

  predicate ProviderReady(l: Ledger, i: nat, j: nat)
    requires Shape(l) && i < |l.modules|
  {
    j in l.modules[i].deps ==>
      && j < |l.modules| && j != i && l.modules[j].state.Active?
      && l.modules[j].generation == l.modules[i].bound[j]
  }

  function Lease(x: Module): nat
    requires |x.resources| == RESOURCES
  {
    x.resources[LEASE]
  }

  function SetLease(x: Module, n: nat): (y: Module)
    requires |x.resources| == RESOURCES
    ensures |y.resources| == RESOURCES && Lease(y) == n && y.bound == x.bound && y.deps == x.deps
  {
    x.(resources := x.resources[LEASE := n])
  }

  predicate SameButLease(x: Module, y: Module) {
    |x.resources| == RESOURCES && |y.resources| == RESOURCES && y == SetLease(x, Lease(y))
  }

  /** A provider with one more, or one fewer, lease; any other module unchanged. */
  function Adjusted(x: Module, provider: bool, up: bool): (y: Module)
    requires |x.resources| == RESOURCES && (provider && !up ==> Lease(x) > 0)
    ensures SameButLease(x, y) && Lease(y) == Lease(x) + (if !provider then 0 else if up then 1 else -1)
  {
    if !provider then x else SetLease(x, if up then Lease(x) + 1 else Lease(x) - 1)
  }

  function Adjust(ms: seq<Module>, deps: set<nat>, up: bool): (r: seq<Module>)
    requires forall i :: 0 <= i < |ms| ==> |ms[i].resources| == RESOURCES
    requires !up ==> forall j :: 0 <= j < |ms| && j in deps ==> Lease(ms[j]) > 0
    ensures |r| == |ms| && forall j :: 0 <= j < |ms| ==> r[j] == Adjusted(ms[j], j in deps, up)
  {
    seq(|ms|, j requires 0 <= j < |ms| => Adjusted(ms[j], j in deps, up))
  }

  /** The first provider that blocks a start, in slot order, decides the error. */
  function StartError(l: Ledger, i: nat, n: nat): Result
    requires Shape(l) && i < |l.modules| && n <= |l.modules|
    decreases n
  {
    if n == 0 then Ok(0)
    else
      var before := StartError(l, i, n - 1);
      if !before.Ok? || n - 1 !in l.modules[i].deps then before
      else if !ProviderReady(l, i, n - 1) then Dependency
      else if Lease(l.modules[n - 1]) == U32_MAX then NoSpace
      else Ok(0)
  }

  function Start(l: Ledger, i: nat): (Ledger, Result)
    requires Shape(l)
  {
    if i >= |l.modules| || !(l.modules[i].state.Verified? || l.modules[i].state.Stopped?) then (l, Invalid)
    else if exists j | j in l.modules[i].deps :: j >= |l.modules| then (l, Dependency)
    else
      var e := StartError(l, i, |l.modules|);
      if !e.Ok? then (l, e)
      else
        var leased := Adjust(l.modules, l.modules[i].deps, true);
        (l.(modules := leased[i := leased[i].(state := Active)]), Ok(0))
  }

  function SetResource(l: Ledger, i: nat, r: nat, n: nat): Ledger
    requires Shape(l) && i < |l.modules| && r < RESOURCES
  {
    l.(modules := l.modules[i := l.modules[i].(resources := l.modules[i].resources[r := n])])
  }

  function Acquire(l: Ledger, i: nat, r: nat): (Ledger, Result)
    requires Shape(l)
  {
    if i >= |l.modules| || r >= RESOURCES then (l, Invalid)
    else if l.modules[i].state.Draining? then (l, IsDraining)
    else if !l.modules[i].state.Active? then (l, Stale)
    else if l.modules[i].resources[r] == U32_MAX then (l, NoSpace)
    else (SetResource(l, i, r, l.modules[i].resources[r] + 1), Ok(0))
  }

  function Release(l: Ledger, i: nat, r: nat): (Ledger, Result)
    requires Shape(l)
  {
    if i >= |l.modules| || r >= RESOURCES || l.modules[i].resources[r] == 0 then (l, Invalid)
    else (SetResource(l, i, r, l.modules[i].resources[r] - 1), Ok(0))
  }

  function SetState(l: Ledger, i: nat, s: State): Ledger
    requires i < |l.modules|
  {
    l.(modules := l.modules[i := l.modules[i].(state := s)])
  }

  function Prepare(l: Ledger, i: nat): (Ledger, Result) {
    if i >= |l.modules| then (l, Invalid)
    else if l.modules[i].pinned then (l, Denied)
    else if !l.modules[i].state.Active? then (l, Invalid)
    else (SetState(l, i, Draining), Ok(0))
  }

  function CancelDrain(l: Ledger, i: nat): (Ledger, Result) {
    if i >= |l.modules| || !l.modules[i].state.Draining? then (l, Invalid) else (SetState(l, i, Active), Ok(0))
  }

  /** The first resource still in use, if any. */
  function FirstHeld(rs: seq<nat>): (r: nat)
    ensures r <= |rs| && (r < |rs| ==> rs[r] != 0)
    ensures forall k :: 0 <= k < r ==> rs[k] == 0
  {
    if rs == [] || rs[0] != 0 then 0 else 1 + FirstHeld(rs[1..])
  }

  /** The checks that guard against a malformed ledger before any lease is returned. */
  function StopError(l: Ledger, i: nat, n: nat): Result
    requires Shape(l) && i < |l.modules| && n <= |l.modules|
    decreases n
  {
    if n == 0 then Ok(0)
    else
      var before := StopError(l, i, n - 1);
      var p := l.modules[n - 1];
      if !before.Ok? || n - 1 !in l.modules[i].deps then before
      else if !Registered(p) || p.generation != l.modules[i].bound[n - 1] then Dependency
      else if Lease(p) == 0 then Invalid
      else Ok(0)
  }

  lemma {:induction false} StopOkMeans(l: Ledger, i: nat, n: nat)
    requires Shape(l) && i < |l.modules| && n <= |l.modules| && StopError(l, i, n).Ok?
    ensures forall j :: 0 <= j < n && j in l.modules[i].deps ==> Lease(l.modules[j]) > 0
    decreases n
  {
    if n > 0 {
      StopOkMeans(l, i, n - 1);
    }
  }

  function Stop(l: Ledger, i: nat): (Ledger, Result)
    requires Shape(l)
  {
    if i >= |l.modules| || !l.modules[i].state.Draining? then (l, Invalid)
    else
      var held := FirstHeld(l.modules[i].resources);
      if held < RESOURCES then (l, if held == LEASE then Dependency else Busy)
      else if exists j | j in l.modules[i].deps :: j >= |l.modules| then (l, Dependency)
      else
        var e := StopError(l, i, |l.modules|);
        if !e.Ok? then (l, e)
        else
          StopOkMeans(l, i, |l.modules|);
          var returned := Adjust(l.modules, l.modules[i].deps, false);
          (l.(modules := returned[i := returned[i].(state := Stopped)]), Ok(0))
  }

  function Unload(l: Ledger, i: nat): (Ledger, Result) {
    if i >= |l.modules| || !l.modules[i].state.Stopped? then (l, Invalid) else (SetState(l, i, Unloaded), Ok(0))
  }

  // ----------------------------------------------------------------- runs

  datatype Event =
    | Adds(named: bool, deps: set<nat>, pinned: bool)
    | Starts(i: nat)
    | Acquires(i: nat, r: nat)
    | Releases(i: nat, r: nat)
    | Prepares(i: nat)
    | Cancels(i: nat)
    | Stops(i: nat)
    | Unloads(i: nat)

  function Next(l: Ledger, ev: Event): (Ledger, Result)
    requires Shape(l)
  {
    match ev
    case Adds(named, deps, pinned) => Add(l, named, deps, pinned)
    case Starts(i) => Start(l, i)
    case Acquires(i, r) => Acquire(l, i, r)
    case Releases(i, r) => Release(l, i, r)
    case Prepares(i) => Prepare(l, i)
    case Cancels(i) => CancelDrain(l, i)
    case Stops(i) => Stop(l, i)
    case Unloads(i) => Unload(l, i)
  }

  /** Outstanding leases taken by clients outside the manager, per slot. */
  type External = seq<nat>

  function NextExternal(l: Ledger, ext: External, ev: Event): (r: External)
    requires Shape(l) && |ext| == |l.modules|
    ensures |r| == |ext|
  {
    if !Next(l, ev).1.Ok? then ext
    else if ev.Acquires? && ev.r == LEASE && ev.i < |ext| then ext[ev.i := ext[ev.i] + 1]
    else if ev.Releases? && ev.r == LEASE && ev.i < |ext| && ext[ev.i] > 0 then ext[ev.i := ext[ev.i] - 1]
    else ext
  }

  /** Clients release a lease only if they hold one. */
  predicate Disciplined(l: Ledger, ext: External, ev: Event) {
    ev.Releases? && ev.r == LEASE && ev.i < |ext| ==> ext[ev.i] > 0
  }

  // ------------------------------------------------------------ invariant

  predicate DependsOn(x: Module, p: nat) { Running(x) && p in x.deps }

  /** Number of running modules among the first `n` that depend on `p`. */
  function Dependents(ms: seq<Module>, p: nat, n: nat): nat
    requires n <= |ms|
  {
    if n == 0 then 0 else Dependents(ms, p, n - 1) + (if DependsOn(ms[n - 1], p) then 1 else 0)
  }

  ghost predicate Balanced(l: Ledger, ext: External)
    requires Shape(l) && |ext| == |l.modules|
  {
    forall p :: 0 <= p < |l.modules| ==>
      Lease(l.modules[p]) == Dependents(l.modules, p, |l.modules|) + ext[p]
  }

  /** Providers of running modules run at the generation that was bound. */
  predicate BoundOk(l: Ledger, i: nat, j: nat)
    requires Shape(l) && i < |l.modules|
  {
    j in l.modules[i].deps ==>
      j < |l.modules| && l.modules[j].generation == l.modules[i].bound[j] && Running(l.modules[j])
  }

  ghost predicate ProvidersRun(l: Ledger)
    requires Shape(l)
  {
    forall i, j :: 0 <= i < |l.modules| && Running(l.modules[i]) && j in l.modules[i].deps ==> BoundOk(l, i, j)
  }

  ghost predicate GenerationsFall(l: Ledger)
    requires Shape(l)
  {
    && (forall i :: 0 <= i < |l.modules| ==> l.modules[i].generation <= l.next)
    && (forall i, j :: 0 <= i < |l.modules| && j in l.modules[i].deps ==> l.modules[i].bound[j] < l.modules[i].generation)
    && (forall i :: 0 <= i < |l.modules| && !Vacant(l.modules[i]) ==> l.modules[i].generation != 0)
  }

  ghost predicate Idle(l: Ledger, ext: External)
    requires Shape(l) && |ext| == |l.modules|
  {
    forall i :: 0 <= i < |l.modules| && !Running(l.modules[i]) ==> Lease(l.modules[i]) == 0
  }

  ghost predicate Inv(l: Ledger, ext: External) {
    && Shape(l) && |ext| == |l.modules|
    && Balanced(l, ext) && ProvidersRun(l) && GenerationsFall(l) && Idle(l, ext)
    && (forall i, j :: 0 <= i < |l.modules| && j in l.modules[i].deps ==> j < |l.modules|)
  }
}
