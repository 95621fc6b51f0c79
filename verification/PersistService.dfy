/** The update service: it reads the mounted table, decides, and commits. */
module PersistService {
  import opened Bytes
  import opened TxnImage
  import opened TxnTable
  import V = TxnVolume
  import TC = TxnCrash
  import TR = TxnRuns
  import U = Update
  import P = Persistence

  datatype Outcome = Refused | Done | InDoubt

  class Service {
    const store: V.Store
    const auth: P.Verify

    constructor (store: V.Store, auth: P.Verify)
      ensures this.store == store && this.auth == auth
    {
      this.store := store;
      this.auth := auth;
    }

    ghost predicate Mounted(start: TC.Sys)
      reads store, store.dev
    {
      store.Valid() && store.ready && store.generation < MAX_U64 && store.Mirrors(start) && start.stage.Idle?
    }

    /** The store went from `start` along `run` to where it is now. */
    ghost predicate Moved(start: TC.Sys, run: seq<TC.Sys>)
      reads store, store.dev
    {
      && store.Valid() && TR.Steps(store.sha, run) && run[0] == start
      && store.Mirrors(run[|run| - 1]) && run[|run| - 1].stage.Idle?
    }

    /** The result of committing `u` over `files`, or of refusing to. */
    ghost predicate Committed(files: seq<File>, u: Option<seq<Update>>, r: Outcome)
      reads store
    {
      match u
      case None => r == Refused && store.ready && store.files == files
      case Some(updates) =>
        || (r == Done && store.ready && Plan(files, updates, |updates|) == Planned(store.files))
        || (r == InDoubt && !store.ready && store.files == files)
    }

    method ReadState() returns (s: Option<U.Record>)
      requires store.Valid() && store.ready
      ensures s == P.StateRead(store.sha, auth, store.files)
    {
      hide U.Valid, U.Decode, Lookup, PathOk;
      P.NamesLegal();
      NonEmpty(P.BOOT);
      var r, b := store.Get(P.BOOT, U.UPDATE_BYTES);
      if r == NotFound {
        return Some(U.BLANK);
      }
      if r == NoSpace {
        LongRecord(Lookup(store.files, P.BOOT).value);
        return None;
      }
      if |b| == 1 && U.IsSlot(b[0]) {
        NonEmpty(P.SlotPath(b[0]));
        var q, content := store.Get(P.SlotPath(b[0]), FILE_BYTES);
        if q == NoSpace {
          StoredSize(store.files, P.SlotPath(b[0]));
        }
        if q != Ok || auth(content).None? {
          return None;
        }
        s := Some(U.BLANK.(good := b[0], goodHash := store.sha(content), appId := auth(content).value.id));
        return if U.Valid(s.value) then s else None;
      }
      s := U.Decode(b);
    }

    /** The version floor, from the confirmed slot itself. */
    method ConfirmedVersion(s: U.Record) returns (v: Option<U.Version>)
      requires store.Valid() && store.ready
      ensures v == P.SlotVersion(store.sha, auth, store.files, s.good, s.goodHash, s.appId)
    {
      hide Lookup, PathOk;
      P.NamesLegal();
      NonEmpty(P.SlotPath(s.good));
      var r, content := store.Get(P.SlotPath(s.good), FILE_BYTES);
      if r == NoSpace {
        StoredSize(store.files, P.SlotPath(s.good));
      }
      if r != Ok || store.sha(content) != s.goodHash || auth(content).None? || auth(content).value.id != s.appId {
        return None;
      }
      v := Some(auth(content).value.version);
    }

    method CommitAll(u: seq<Update>, ghost start: TC.Sys) returns (r: Outcome, ghost run: seq<TC.Sys>)
      requires Mounted(start) && P.Tidy(store.files) && P.LegalUpdates(u)
      modifies store, store.buffer, store.dev
      ensures Moved(start, run) && Committed(old(store.files), Some(u), r)
      ensures Plan(old(store.files), u, |u|).Planned? && TR.OnlyBegins(run, old(store.files), Plan(old(store.files), u, |u|).files)
    {
      hide Plan, P.Tidy, PathOk, TC.Step, TC.Shape, Wf, V.Updates, TR.OnlyBegins;
      P.AlwaysRoom(store.files, u);
      var paths, data, bytes := Marshal(u);
      var status;
      status, run := store.Commit(paths, data, bytes, start);
      r := if status == Ok then Done else InDoubt;
    }

    method Install(package: seq<byte>, revoked: bool, ghost start: TC.Sys) returns (r: Outcome, ghost run: seq<TC.Sys>)
      requires Mounted(start) && P.Tidy(store.files)
      modifies store, store.buffer, store.dev
      ensures Moved(start, run)
      ensures Committed(old(store.files), P.PlanInstall(store.sha, auth, old(store.files), package, revoked), r)
      ensures P.RunOf(store.sha, auth, run, P.Op.Install(package, revoked)) && P.FollowsPolicy(store.sha, auth, run)
    {
      hide P.StateRead, P.SlotVersion, P.Tidy, Plan, U.Valid, U.Encode, U.Stage, Wf, TC.Step, TC.Shape, TR.OnlyBegins, P.RunOf, P.FollowsPolicy;
      run := [start];
      NoOperation(store.sha, auth, start);
      var state := ReadState();
      if state.None? || state.value.phase != U.STABLE {
        return Refused, run;
      }
      var s := state.value;
      var floor := None;
      if s.good != 0 {
        floor := ConfirmedVersion(s);
        if floor.None? {
          return Refused, run;
        }
      }
      if |package| > FILE_BYTES || auth(package).None? || revoked {
        return Refused, run;
      }
      var app, hash := auth(package).value, store.sha(package);
      if s.good != 0 && (s.appId != app.id || U.Judge(floor.value, s.goodHash, app.version, hash) != U.Upgrade) {
        return Refused, run;
      }
      var staged := U.Stage(s, app.id, hash);
      if staged.None? {
        return Refused, run;
      }
      P.CommitmentLegal(store.sha, auth, store.files, P.Op.Install(package, revoked));
      var u := [Update(P.SlotPath(staged.value.candidate), package), Update(P.BOOT, U.Encode(staged.value))];
      r, run := CommitAll(u, start);
      OneOperation(store.sha, auth, run, old(store.files), P.Op.Install(package, revoked));
    }

    method Rewrite(t: Option<U.Record>, ghost start: TC.Sys) returns (r: Outcome, ghost run: seq<TC.Sys>)
      requires Mounted(start) && P.Tidy(store.files)
      modifies store, store.buffer, store.dev
      ensures Moved(start, run) && Committed(old(store.files), P.Rewrite(t), r)
      ensures forall op :: P.Commitment(store.sha, auth, old(store.files), op) == P.Rewrite(t) ==>
                P.RunOf(store.sha, auth, run, op) && P.FollowsPolicy(store.sha, auth, run)
    {
      hide P.Tidy, Plan, U.Encode, PathOk, TC.Step, TC.Shape, Wf, TR.OnlyBegins, P.RunOf, P.FollowsPolicy, P.Commitment;
      P.NamesLegal();
      run := [start];
      NoOperation(store.sha, auth, start);
      if t.None? {
        return Refused, run;
      }
      r, run := CommitAll([Update(P.BOOT, U.Encode(t.value))], start);
      forall op | P.Commitment(store.sha, auth, old(store.files), op) == P.Rewrite(t)
        ensures P.RunOf(store.sha, auth, run, op) && P.FollowsPolicy(store.sha, auth, run)
      {
        OneOperation(store.sha, auth, run, old(store.files), op);
      }
    }

    /** A stable volume with a confirmed package has nothing to try, which is no failure. */
    method BeginTrial(ghost start: TC.Sys) returns (r: Outcome, steady: bool, ghost run: seq<TC.Sys>)
      requires Mounted(start) && P.Tidy(store.files)
      modifies store, store.buffer, store.dev
      ensures Moved(start, run)
      ensures Committed(old(store.files), P.Commitment(store.sha, auth, old(store.files), P.Begin), r)
      ensures P.RunOf(store.sha, auth, run, P.Begin) && P.FollowsPolicy(store.sha, auth, run)
      ensures var s := P.StateRead(store.sha, auth, old(store.files));
              steady <==> s.Some? && s.value.phase == U.STABLE && s.value.good != 0
    {
      hide P.StateRead, P.Tidy, Plan, U.BeginTrial, Wf, TC.Step, TC.Shape, P.RunOf, P.FollowsPolicy;
      run, steady := [start], false;
      NoOperation(store.sha, auth, start);
      var state := ReadState();
      if state.None? || state.value.phase == U.STABLE {
        return Refused, state.Some? && state.value.good != 0, run;
      }
      r, run := Rewrite(U.BeginTrial(state.value), start);
    }

    method Finish(success: bool, ghost start: TC.Sys) returns (r: Outcome, ghost run: seq<TC.Sys>)
      requires Mounted(start) && P.Tidy(store.files)
      modifies store, store.buffer, store.dev
      ensures Moved(start, run)
      ensures Committed(old(store.files), P.Commitment(store.sha, auth, old(store.files), P.Finish(success)), r)
      ensures P.RunOf(store.sha, auth, run, P.Finish(success)) && P.FollowsPolicy(store.sha, auth, run)
    {
      hide P.StateRead, P.Tidy, Plan, U.Finish, Wf, TC.Step, TC.Shape, P.RunOf, P.FollowsPolicy;
      run := [start];
      NoOperation(store.sha, auth, start);
      var state := ReadState();
      if state.None? {
        return Refused, run;
      }
      r, run := Rewrite(U.Finish(state.value, success), start);
    }

    /** At mount, a trial that was still running is rolled back. */
    method RecoverTrial(ghost start: TC.Sys) returns (r: Outcome, ghost run: seq<TC.Sys>)
      requires Mounted(start) && P.Tidy(store.files)
      modifies store, store.buffer, store.dev
      ensures Moved(start, run)
      ensures Committed(old(store.files), P.Commitment(store.sha, auth, old(store.files), P.Recover), r)
      ensures P.RunOf(store.sha, auth, run, P.Recover) && P.FollowsPolicy(store.sha, auth, run)
    {
      hide P.StateRead, P.Tidy, Plan, U.Finish, Wf, TC.Step, TC.Shape, P.RunOf, P.FollowsPolicy;
      run := [start];
      NoOperation(store.sha, auth, start);
      var state := ReadState();
      if state.None? || state.value.phase != U.TRYING {
        return Refused, run;
      }
      r, run := Rewrite(U.Finish(state.value, false), start);
    }
  }

  lemma NoOperation(sha: Hash, auth: P.Verify, s: TC.Sys)
    ensures P.FollowsPolicy(sha, auth, [s]) && forall op :: P.RunOf(sha, auth, [s], op)
  {
    hide P.CommitOf;
  }

  /** A run that begins only the planned commit of `op` is a run of `op`. */
  lemma OneOperation(sha: Hash, auth: P.Verify, run: seq<TC.Sys>, files: seq<File>, op: P.Op)
    requires var u := P.Commitment(sha, auth, files, op);
             && run != [] && u.Some? && Plan(files, u.value, |u.value|).Planned?
             && TR.OnlyBegins(run, files, Plan(files, u.value, |u.value|).files)
    ensures P.RunOf(sha, auth, run, op) && P.FollowsPolicy(sha, auth, run)
  {
    hide Plan, P.Commitment;
    P.RunOfFollows(sha, auth, run, op);
  }

  /** The three parallel argument lists of a commit of one or two files. */
  method Marshal(u: seq<Update>) returns (paths: seq<seq<byte>>, data: seq<array<byte>>, bytes: seq<nat>)
    requires P.LegalUpdates(u)
    ensures |paths| == |data| == |bytes| == |u|
    ensures forall n :: 0 <= n < |u| ==> bytes[n] <= data[n].Length
    ensures V.Updates(paths, V.Arrays(data), bytes) == u
  {
    var first := ToArray(u[0].data);
    paths, data, bytes := [u[0].path], [first], [|u[0].data|];
    if |u| == 2 {
      var second := ToArray(u[1].data);
      paths, data, bytes := paths + [u[1].path], data + [second], bytes + [|u[1].data|];
    }
    ghost var got := V.Updates(paths, V.Arrays(data), bytes);
    assert V.Arrays(data)[0] == u[0].data && got[0] == u[0];
    assert |u| == 2 ==> V.Arrays(data)[1] == u[1].data && got[1] == u[1];
    assert got == u;
  }

  method ToArray(s: seq<byte>) returns (a: array<byte>)
    ensures fresh(a) && a[..] == s
  {
    a := new byte[|s|](i requires 0 <= i < |s| => s[i]);
  }

  lemma LongRecord(b: seq<byte>)
    requires |b| > U.UPDATE_BYTES
    ensures U.Decode(b).None?
  {
  }

  lemma {:induction false} StoredSize(files: seq<File>, path: seq<byte>)
    requires forall k :: 0 <= k < |files| ==> |files[k].data| <= FILE_BYTES
    ensures Lookup(files, path).Some? ==> |Lookup(files, path).value| <= FILE_BYTES
  {
    if files != [] {
      StoredSize(files[1..], path);
    }
  }
}
