/** The manager as it runs: slot scans and counter updates in place. */
module ManagerService {
  import opened Manager
  import ManagerRuns

  class Service {
    var modules: seq<Module>
    var next: nat

    function State(): Ledger
      reads this
    {
      Ledger(modules, next)
    }

    constructor (slots: nat)
      ensures State() == Zeroed(slots) && Inv(State(), seq(slots, _ => 0))
    {
      modules := seq(slots, _ => ZeroedSlot());
      next := 0;
      ManagerRuns.ZeroedInv(slots);
    }

    method AddModule(named: bool, deps: set<nat>, pinned: bool) returns (r: Result)
      requires Shape(State())
      modifies this
      ensures (State(), r) == Add(old(State()), named, deps, pinned)
    {
      if !named {
        return Invalid;
      }
      if exists j | j in deps :: j >= |modules| {
        return Dependency;
      }
      for j := 0 to |modules|
        modifies {}
        invariant forall k :: 0 <= k < j && k in deps ==> Registered(modules[k])
      {
        if j in deps && !Registered(modules[j]) {
          return Dependency;
        }
      }
      if next == U32_MAX {
        return NoSpace;
      }
      var i := 0;
      while i < |modules| && !Vacant(modules[i])
        modifies {}
        invariant 0 <= i <= |modules| && FirstVacant(modules) == i + FirstVacant(modules[i..])
      {
        assert modules[i..][1..] == modules[i + 1..];
        i := i + 1;
      }
      if i == |modules| {
        return NoSpace;
      }
      modules, next := modules[i := Fresh(State(), deps, pinned)], next + 1;
      r := Ok(i);
    }

    method CheckReady(i: nat) returns (r: Result)
      requires Shape(State()) && i < |modules|
      ensures r == StartError(State(), i, |modules|)
    {
      for j := 0 to |modules|
        invariant StartError(State(), i, j) == Ok(0)
      {
        if j in modules[i].deps {
          StartFails(State(), i, j + 1);
          if j == i || !modules[j].state.Active? || modules[j].generation != modules[i].bound[j] {
            return Dependency;
          }
          if modules[j].resources[LEASE] == U32_MAX {
            return NoSpace;
          }
        }
      }
      r := Ok(0);
    }

    /** All checks precede the state change and every increment. */
    method StartModule(i: nat) returns (r: Result)
      requires Shape(State())
      modifies this
      ensures (State(), r) == Start(old(State()), i)
    {
      hide StartError, Adjust;
      if i >= |modules| || !(modules[i].state.Verified? || modules[i].state.Stopped?) {
        return Invalid;
      }
      if exists j | j in modules[i].deps :: j >= |modules| {
        return Dependency;
      }
      r := CheckReady(i);
      if !r.Ok? {
        return;
      }
      AdjustLeases(modules[i].deps, true);
      modules := modules[i := modules[i].(state := Active)];
      r := Ok(0);
    }

    method AdjustLeases(deps: set<nat>, up: bool)
      requires Shape(State()) && (!up ==> forall j :: 0 <= j < |modules| && j in deps ==> Lease(modules[j]) > 0)
      modifies `modules
      ensures modules == Adjust(old(modules), deps, up)
    {
      ghost var before := modules;
      for j := 0 to |modules|
        invariant |modules| == |before|
        invariant forall k :: 0 <= k < |before| ==> modules[k] == if k < j then Adjusted(before[k], k in deps, up) else before[k]
      {
        if j in deps {
          var n := modules[j].resources[LEASE];
          modules := modules[j := SetLease(modules[j], if up then n + 1 else n - 1)];
        }
      }
    }

    method AcquireResource(i: nat, res: nat) returns (r: Result)
      requires Shape(State())
      modifies this
      ensures (State(), r) == Acquire(old(State()), i, res)
    {
      if i >= |modules| || res >= RESOURCES {
        return Invalid;
      }
      if modules[i].state.Draining? {
        return IsDraining;
      }
      if !modules[i].state.Active? {
        return Stale;
      }
      var held := modules[i].resources;
      if held[res] == U32_MAX {
        return NoSpace;
      }
      modules := modules[i := modules[i].(resources := held[res := held[res] + 1])];
      r := Ok(0);
    }

    method ReleaseResource(i: nat, res: nat) returns (r: Result)
      requires Shape(State())
      modifies this
      ensures (State(), r) == Release(old(State()), i, res)
    {
      if i >= |modules| || res >= RESOURCES || modules[i].resources[res] == 0 {
        return Invalid;
      }
      var held := modules[i].resources;
      modules := modules[i := modules[i].(resources := held[res := held[res] - 1])];
      r := Ok(0);
    }

    method PrepareModule(i: nat) returns (r: Result)
      modifies this
      ensures (State(), r) == Prepare(old(State()), i)
    {
      if i >= |modules| {
        return Invalid;
      }
      if modules[i].pinned {
        return Denied;
      }
      if !modules[i].state.Active? {
        return Invalid;
      }
      modules := modules[i := modules[i].(state := Draining)];
      r := Ok(0);
    }

    method CancelModule(i: nat) returns (r: Result)
      modifies this
      ensures (State(), r) == CancelDrain(old(State()), i)
    {
      if i >= |modules| || !modules[i].state.Draining? {
        return Invalid;
      }
      modules := modules[i := modules[i].(state := Active)];
      r := Ok(0);
    }

    method UnloadModule(i: nat) returns (r: Result)
      modifies this
      ensures (State(), r) == Unload(old(State()), i)
    {
      if i >= |modules| || !modules[i].state.Stopped? {
        return Invalid;
      }
      modules := modules[i := modules[i].(state := Unloaded)];
      r := Ok(0);
    }

    method HeldResource(i: nat) returns (res: nat)
      requires Shape(State()) && i < |modules|
      ensures res == FirstHeld(modules[i].resources)
    {
      var held := modules[i].resources;
      res := 0;
      while res < RESOURCES
        invariant 0 <= res <= RESOURCES && FirstHeld(held) == res + FirstHeld(held[res..])
      {
        assert held[res..][1..] == held[res + 1..];
        if held[res] != 0 {
          return;
        }
        res := res + 1;
      }
    }

    method CheckProviders(i: nat) returns (r: Result)
      requires Shape(State()) && i < |modules|
      ensures r == StopError(State(), i, |modules|)
    {
      for j := 0 to |modules|
        invariant StopError(State(), i, j) == Ok(0)
      {
        if j in modules[i].deps {
          StopFails(State(), i, j + 1);
          if !Registered(modules[j]) || modules[j].generation != modules[i].bound[j] {
            return Dependency;
          }
          if modules[j].resources[LEASE] == 0 {
            return Invalid;
          }
        }
      }
      r := Ok(0);
    }

    /** A malformed ledger must not release some providers and not others. */
    method StopModule(i: nat) returns (r: Result)
      requires Shape(State())
      modifies this
      ensures (State(), r) == Stop(old(State()), i)
    {
      hide StopError, FirstHeld, Adjust;
      if i >= |modules| || !modules[i].state.Draining? {
        return Invalid;
      }
      var res := HeldResource(i);
      if res < RESOURCES {
        return if res == LEASE then Dependency else Busy;
      }
      if exists j | j in modules[i].deps :: j >= |modules| {
        return Dependency;
      }
      r := CheckProviders(i);
      if !r.Ok? {
        return;
      }
      StopOkMeans(State(), i, |modules|);
      AdjustLeases(modules[i].deps, false);
      modules := modules[i := modules[i].(state := Stopped)];
      r := Ok(0);
    }
  }

  /** The first failing provider decides the result of the whole scan. */
  lemma {:induction false} StartFails(l: Ledger, i: nat, n: nat)
    requires Shape(l) && i < |l.modules| && n <= |l.modules|
    ensures !StartError(l, i, n).Ok? ==> StartError(l, i, |l.modules|) == StartError(l, i, n)
    decreases |l.modules| - n
  {
    if n < |l.modules| {
      StartFails(l, i, n + 1);
    }
  }

  lemma {:induction false} StopFails(l: Ledger, i: nat, n: nat)
    requires Shape(l) && i < |l.modules| && n <= |l.modules|
    ensures !StopError(l, i, n).Ok? ==> StopError(l, i, |l.modules|) == StopError(l, i, n)
    decreases |l.modules| - n
  {
    if n < |l.modules| {
      StopFails(l, i, n + 1);
    }
  }
}
