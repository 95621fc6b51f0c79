/** Building the next table of a commit, and its meaning as a finite map. */
module TxnTable {
  import opened Bytes
  import opened TxnImage

  datatype Status = Ok | Invalid | BadFormat | DeviceGone | NoSpace | NotFound | Uncertain | ReadFailed

  datatype Update = Update(path: seq<byte>, data: seq<byte>)

  datatype Planned = Planned(files: seq<File>) | Rejected(status: Status)

  /** The slot a path goes to: its own, else the first unused one, else none. */
  function SlotFor(files: seq<File>, path: seq<byte>): (i: nat)
    ensures i <= |files|
    ensures forall k :: 0 <= k < i ==> files[k].path != [] && files[k].path != path
    ensures i < |files| ==> files[i].path == [] || files[i].path == path
  {
    if files == [] || files[0].path == [] || files[0].path == path then 0 else 1 + SlotFor(files[1..], path)
  }

  predicate Fresh(updates: seq<Update>, n: nat)
    requires n < |updates|
  {
    forall j :: 0 <= j < n ==> updates[j].path != updates[n].path
  }

  /** The table after the first `n` updates, or the first error met on the way. */
  function Plan(files: seq<File>, updates: seq<Update>, n: nat): Planned
    requires n <= |updates|
    decreases n
  {
    if n == 0 then Planned(files)
    else
      match Plan(files, updates, n - 1)
      case Rejected(status) => Rejected(status)
      case Planned(next) =>
        var u := updates[n - 1];
        if !PathOk(u.path) || |u.data| > FILE_BYTES || !Fresh(updates, n - 1) then Rejected(Invalid)
        else if SlotFor(next, u.path) == |next| then Rejected(NoSpace)
        else Planned(next[SlotFor(next, u.path) := File(u.path, u.data)])
  }

  lemma PlanStart(files: seq<File>, updates: seq<Update>)
    ensures Plan(files, updates, 0) == Planned(files)
  {
  }

  lemma PlanNextIs(files: seq<File>, updates: seq<Update>, n: nat, next: seq<File>)
    requires n < |updates| && Plan(files, updates, n) == Planned(next)
    ensures Plan(files, updates, n + 1) ==
            var u := updates[n];
            if !PathOk(u.path) || |u.data| > FILE_BYTES || !Fresh(updates, n) then Rejected(Invalid)
            else if SlotFor(next, u.path) == |next| then Rejected(NoSpace)
            else Planned(next[SlotFor(next, u.path) := File(u.path, u.data)])
  {
  }

  lemma {:induction false} RejectedStays(files: seq<File>, updates: seq<Update>, n: nat, m: nat)
    requires n <= m <= |updates|
    ensures Plan(files, updates, n).Rejected? ==> Plan(files, updates, m) == Plan(files, updates, n)
    decreases m
  {
    if n < m {
      RejectedStays(files, updates, n, m - 1);
    }
  }

  /** The table as a finite map from path to contents. */
  function Lookup(files: seq<File>, path: seq<byte>): Option<seq<byte>> {
    if files == [] then None
    else if files[0] != EMPTY && files[0].path == path then Some(files[0].data)
    else Lookup(files[1..], path)
  }

  lemma NonEmpty(p: seq<byte>)
    requires PathOk(p)
    ensures p != []
  {
  }

  lemma EmptyPath(files: seq<File>, k: nat)
    requires Wf(files) && k < FILES
    ensures files[k].path == [] <==> files[k] == EMPTY
  {
    hide PathOk;
    if files[k] != EMPTY {
      NonEmpty(files[k].path);
    }
  }

  lemma PutKeepsWf(files: seq<File>, u: Update)
    requires Wf(files) && PathOk(u.path) && |u.data| <= FILE_BYTES && SlotFor(files, u.path) < FILES
    ensures Wf(files[SlotFor(files, u.path) := File(u.path, u.data)])
  {
    hide PathOk;
    NonEmpty(u.path);
    forall k | 0 <= k < FILES
      ensures files[k].path == [] <==> files[k] == EMPTY
    {
      EmptyPath(files, k);
    }
  }

  /** One accepted update changes one key and no other. */
  lemma {:induction false} PutLookup(files: seq<File>, u: Update, p: seq<byte>)
    requires u.path != [] && SlotFor(files, u.path) < |files|
    requires forall k :: 0 <= k < |files| && files[k].path == [] ==> files[k] == EMPTY
    ensures Lookup(files[SlotFor(files, u.path) := File(u.path, u.data)], p)
         == if p == u.path then Some(u.data) else Lookup(files, p)
  {
    var i := SlotFor(files, u.path);
    var next := files[i := File(u.path, u.data)];
    if i == 0 {
      assert next[1..] == files[1..];
    } else {
      PutLookup(files[1..], u, p);
      assert next[1..] == files[1..][i - 1 := File(u.path, u.data)];
    }
  }

  /** A path is refused for space exactly when it is new and no slot is free. */
  lemma {:induction false} FullTable(files: seq<File>, path: seq<byte>)
    requires path != []
    requires forall k :: 0 <= k < |files| && files[k].path == [] ==> files[k] == EMPTY
    ensures SlotFor(files, path) == |files| <==>
              Lookup(files, path).None? && forall k :: 0 <= k < |files| ==> files[k] != EMPTY
  {
    if files != [] {
      FullTable(files[1..], path);
    }
  }

  function Overlay(files: seq<File>, updates: seq<Update>, n: nat, p: seq<byte>): Option<seq<byte>>
    requires n <= |updates|
    decreases n
  {
    if n == 0 then Lookup(files, p)
    else if updates[n - 1].path == p then Some(updates[n - 1].data)
    else Overlay(files, updates, n - 1, p)
  }

  lemma {:induction false} PlanKeepsWf(files: seq<File>, updates: seq<Update>, n: nat)
    requires Wf(files) && n <= |updates|
    ensures Plan(files, updates, n).Planned? ==> Wf(Plan(files, updates, n).files)
    decreases n
  {
    hide PathOk;
    if n > 0 && Plan(files, updates, n).Planned? {
      PlanKeepsWf(files, updates, n - 1);
      PutKeepsWf(Plan(files, updates, n - 1).files, updates[n - 1]);
    }
  }

  /** A commit is a finite-map update: later keys win, all other keys keep their contents. */
  lemma {:induction false} PlanIsMapUpdate(files: seq<File>, updates: seq<Update>, n: nat, p: seq<byte>)
    requires Wf(files) && n <= |updates|
    ensures Plan(files, updates, n).Planned? ==>
              Lookup(Plan(files, updates, n).files, p) == Overlay(files, updates, n, p)
    decreases n
  {
    hide PathOk;
    if n > 0 && Plan(files, updates, n).Planned? {
      var before := Plan(files, updates, n - 1).files;
      PlanIsMapUpdate(files, updates, n - 1, p);
      PlanKeepsWf(files, updates, n - 1);
      NonEmpty(updates[n - 1].path);
      forall k | 0 <= k < FILES
        ensures before[k].path == [] <==> before[k] == EMPTY
      {
        EmptyPath(before, k);
      }
      PutLookup(before, updates[n - 1], p);
    }
  }

  /**
   When every key in use or being written belongs to a set of at most FILES
   names, a commit of legal updates is never refused for space.
   */
  lemma {:induction false} PlanHasRoom(files: seq<File>, updates: seq<Update>, n: nat, names: seq<seq<byte>>)
    requires Wf(files) && n <= |updates| && |names| <= FILES
    requires forall k :: 0 <= k < FILES && files[k] != EMPTY ==> files[k].path in names
    requires forall k :: 0 <= k < n ==>
               && updates[k].path in names && PathOk(updates[k].path)
               && |updates[k].data| <= FILE_BYTES && Fresh(updates, k)
    ensures Plan(files, updates, n).Planned? && |Plan(files, updates, n).files| == FILES
    ensures forall k :: 0 <= k < FILES && Plan(files, updates, n).files[k] != EMPTY ==>
              Plan(files, updates, n).files[k].path in names
    decreases n
  {
    hide PathOk;
    PlanKeepsWf(files, updates, n);
    if n > 0 {
      PlanHasRoom(files, updates, n - 1, names);
      PlanKeepsWf(files, updates, n - 1);
      var before, u := Plan(files, updates, n - 1).files, updates[n - 1];
      if SlotFor(before, u.path) == FILES {
        TooManyNames(before, u.path, names);
        assert false;
      }
    }
  }

  /** FILES distinct paths and one more cannot all come from FILES names. */
  lemma TooManyNames(files: seq<File>, path: seq<byte>, names: seq<seq<byte>>)
    requires Wf(files) && |names| <= FILES
    requires forall k :: 0 <= k < FILES ==> files[k].path != [] && files[k].path != path
    ensures path !in names || exists k :: 0 <= k < FILES && files[k].path !in names
  {
    hide PathOk;
    var a, b, c, d, e := files[0].path, files[1].path, files[2].path, files[3].path, files[4].path;
    var six := {a, b, c, d, e, path};
    assert |six| == 6;
    var all := set n | n in names;
    NamesSize(names);
    if six <= all {
      SetSize(six, all);
      assert false;
    }
  }

  lemma SetSize(a: set<seq<byte>>, b: set<seq<byte>>)
    requires a <= b
    ensures |a| <= |b|
  {
    assert b == a + (b - a);
  }

  lemma {:induction false} NamesSize(names: seq<seq<byte>>)
    ensures |set n | n in names| <= |names|
  {
    if names != [] {
      NamesSize(names[1..]);
      assert (set n | n in names) == {names[0]} + set n | n in names[1..];
    } else {
      assert (set n | n in names) == {};
    }
  }
}
