/** Whole runs of the namespace: the reference counts stay exact from zeroed tables on. */
module NsRuns {
  import opened Bytes
  import opened Paths
  import opened Namespace
  import opened NsInvariant
  import Utf8

  datatype Event =
    | Creates(path: Path, kind: Kind, ro: bool)
    | Opens(owner: nat, root: Path, path: Path, mode: nat, answer: Answer)
    | OpensAt(owner: nat, h: nat, name: Path, mode: nat, answer: Answer)
    | Removes(owner: nat, h: nat, name: Path, kind: Kind)
    | Dups(owner: nat, h: nat)
    | Closes(owner: nat, h: nat)
    | ReadsAt(owner: nat, h: nat, n: nat, answer: Answer)
    | Puts(owner: nat, h: nat, bytes: seq<byte>, answer: Answer)
    | Truncates(owner: nat, h: nat, n: nat, answer: Answer)
    | Seeks(owner: nat, h: nat, n: nat)
    | Reaps(owner: nat)
    | Unmounts(tag: nat)
    | Attaches(node: nat, external: nat, size: nat, tag: nat, ro: bool)
    | Delegates(owner: nat, h: nat, to: nat)

  ghost function Next(ns: Ns, e: Event): (Ns, Reply)
    requires Inv(ns)
  {
    InvLinked(ns);
    match e
    case Creates(p, k, ro) => Create(ns, p, k, ro)
    case Opens(o, root, p, m, a) => Open(ns, o, root, p, m, a)
    case OpensAt(o, h, name, m, a) => OpenAt(ns, o, h, name, m, a)
    case Removes(o, h, name, k) => Remove(ns, o, h, name, if k == Dir then Dir else File)
    case Dups(o, h) => Dup(ns, o, h)
    case Closes(o, h) => Close(ns, o, h)
    case ReadsAt(o, h, n, a) => Read(ns, o, h, n, a)
    case Puts(o, h, b, a) => Write(ns, o, h, b, a)
    case Truncates(o, h, n, a) => Truncate(ns, o, h, n, a)
    case Seeks(o, h, n) => Seek(ns, o, h, n)
    case Reaps(o) => (ReapFrom(ns, o, 0), Done(0))
    case Unmounts(tag) => Unmount(ns, tag)
    case Attaches(i, x, n, tag, ro) => (if i < |ns.nodes| then Attach(ns, i, x, n, tag, ro) else ns, Done(0))
    case Delegates(o, h, to) => (if to != 0 then Delegate(ns, o, h, to) else ns, Done(0))
  }

  /** A mount claims a node nobody has open, or one it already holds. */
  predicate Orderly(ns: Ns, e: Event) {
    e.Attaches? && e.node < |ns.nodes| ==> e.tag == ns.nodes[e.node].tag || !InUse(ns.descs, e.node)
  }

  /** Every operation keeps the counts and identities, and the mount ledger when mounts are orderly. */
  lemma NextKeeps(ns: Ns, e: Event)
    requires Inv(ns)
    ensures var nt := Next(ns, e).0; Inv(nt) && Stable(ns, nt) && (Ledger(ns) && Orderly(ns, e) ==> Ledger(nt))
  {
    hide Inv, Ledger, Stable, Create, Open, OpenAt, Remove, Dup, Close, Read, Write, Truncate, Seek, ReapFrom, Unmount, Attach, Delegate;
    InvLinked(ns);
    KeptRefl(ns);
    match e
    case Creates(p, k, ro) => CreateKeeps(ns, p, k, ro);
    case Opens(o, root, p, m, a) => OpenKeeps(ns, o, root, p, m, a);
    case OpensAt(o, h, name, m, a) => OpenAtKeeps(ns, o, h, name, m, a);
    case Removes(o, h, name, k) => RemoveKeeps(ns, o, h, name, if k == Dir then Dir else File);
    case Dups(o, h) => DupHandleKeeps(ns, o, h);
    case Closes(o, h) => CloseHandleKeeps(ns, o, h);
    case ReadsAt(o, h, n, a) => ReadKeeps(ns, o, h, n, a);
    case Puts(o, h, b, a) => WriteKeeps(ns, o, h, b, a);
    case Truncates(o, h, n, a) => TruncateKeeps(ns, o, h, n, a);
    case Seeks(o, h, n) => SeekKeeps(ns, o, h, n);
    case Reaps(o) => ReapKeeps(ns, o, 0);
    case Unmounts(tag) => UnmountKeeps(ns, tag);
    case Attaches(i, x, n, tag, ro) =>
      if i < |ns.nodes| {
        AttachKeeps(ns, i, x, n, tag, ro);
        if Ledger(ns) && Orderly(ns, e) {
          AttachOrderly(ns, i, x, n, tag, ro);
        }
      }
    case Delegates(o, h, to) =>
      if to != 0 {
        DelegateKeeps(ns, o, h, to);
      }
  }

  lemma OpenAtKeeps(ns: Ns, owner: nat, h: nat, name: Path, mode: nat, mount: Answer)
    requires Inv(ns) && Linked(ns)
    ensures Kept(ns, OpenAt(ns, owner, h, name, mode, mount).0)
  {
    hide Inv, Kept, Open, Relative, BadMode, Reads, Writes;
    KeptRefl(ns);
    var d := DescOf(ns, owner, h);
    if d >= 0 {
      var base := ns.nodes[ns.descs[d].node].path;
      match Relative(base, name)
      case Refused =>
      case Resolved(path) => OpenKeeps(ns, owner, base, path, mode, mount);
    }
  }

  lemma DupHandleKeeps(ns: Ns, owner: nat, h: nat)
    requires Inv(ns) && Linked(ns)
    ensures Kept(ns, Dup(ns, owner, h).0)
  {
    hide Kept, NewHandle, RefsExact, WritersExact, AllSane, GoodPaths, OnePath;
    KeptRefl(ns);
    var d := DescOf(ns, owner, h);
    if d >= 0 {
      DupKeeps(ns, owner, d);
    }
  }

  lemma CloseHandleKeeps(ns: Ns, owner: nat, h: nat)
    requires Inv(ns) && Linked(ns)
    ensures Kept(ns, Close(ns, owner, h).0)
  {
    hide Kept, CloseSlot, Inv;
    KeptRefl(ns);
    var s := SlotOf(ns, owner, h);
    if s >= 0 {
      CloseKeeps(ns, s);
    }
  }

  lemma AttachOrderly(ns: Ns, i: nat, external: nat, size: nat, tag: nat, ro: bool)
    requires Inv(ns) && Ledger(ns) && i < |ns.nodes| && (tag == ns.nodes[i].tag || !InUse(ns.descs, i))
    ensures Ledger(Attach(ns, i, external, size, tag, ro))
  {
    hide Inv, Ledger, InUse;
    if ns.nodes[i].kind in {Dir, Disk} {
      AttachLedger(ns, i, external, size, tag, ro);
    }
  }

  // ------------------------------------------------------------------ runs

  /** A run: each state is the previous one after its event, which is defined wherever the invariant holds. */
  ghost predicate IsRun(states: seq<Ns>, events: seq<Event>) {
    && |states| == |events| + 1 && Start(states[0])
    && (forall k :: 0 <= k < |events| ==> Inv(states[k]) ==> states[k + 1] == Next(states[k], events[k]).0)
  }

  /** Zeroed tables. */
  predicate Start(ns: Ns) {
    && |ns.handles| <= 255 && ns.calls == []
    && (forall i :: 0 <= i < |ns.nodes| ==> ns.nodes[i] == BLANK)
    && (forall d :: 0 <= d < |ns.descs| ==> ns.descs[d] == Desc(0, 0, 0, 0))
    && (forall i :: 0 <= i < |ns.handles| ==> ns.handles[i] == Handle(0, 0, 0))
  }

  lemma StartInv(ns: Ns)
    requires Start(ns)
    ensures Inv(ns) && Ledger(ns)
  {
    hide Ones, PathOk, Sane, Balance, Naming, Mounted;
    BlankSane();
    forall d | 0 <= d < |ns.descs|
      ensures ns.descs[d].refs == Ones(Naming(ns.handles, d))
    {
      OnesNone(Naming(ns.handles, d));
    }
    forall tag: nat | tag != 0
      ensures Balance(ns.calls, tag) == Ones(Mounted(ns.nodes, ns.descs, tag))
    {
      OnesNone(Mounted(ns.nodes, ns.descs, tag));
      NoCalls(tag);
    }
  }

  lemma NoCalls(tag: nat)
    ensures Balance([], tag) == 0
  {
  }

  /** In every state of every run all counts are exact; with orderly mounts so is the ledger. */
  lemma {:induction false} RunKeeps(states: seq<Ns>, events: seq<Event>, k: nat)
    requires IsRun(states, events) && k < |states|
    ensures Inv(states[k])
    ensures (forall i :: 0 <= i < k ==> Orderly(states[i], events[i])) ==> Ledger(states[k])
  {
    hide Inv, Ledger, Next, Orderly;
    if k == 0 {
      StartInv(states[0]);
    } else {
      RunKeeps(states, events, k - 1);
      NextKeeps(states[k - 1], events[k - 1]);
    }
  }

  // ------------------------------------------- a run that breaks the ledger

  const TOP := BLANK.(path := ROOT, kind := Dir)
  const DISK := BLANK.(path := DISK_ROOT, kind := Dir)

  function Table(a: Node, b: Node, d: Desc, h: Handle): Ns { Ns([a, b], [d], [h], []) }

  /**
   Create the disk directory, open it, mount over it: the ledger is already wrong,
   since the coming close will be charged to a mount that saw no open.
   */
  lemma LedgerCanBreak() returns (states: seq<Ns>, events: seq<Event>)
    ensures IsRun(states, events) && !Ledger(states[|events|])
  {
    hide Inv, Ledger, Next, PathOk, Open, Create;
    var empty, closed := Desc(0, 0, 0, 0), Handle(0, 0, 0);
    var s0 := Table(BLANK, BLANK, empty, closed);
    var s1 := Table(TOP, BLANK, empty, closed);
    var s2 := Table(TOP, DISK, empty, closed);
    var s3 := Table(TOP, DISK, Desc(1, 0, 1, 1), Handle(1, 1, 1));
    var e0, e1, e2, e3 := Creates(ROOT, Dir, false), Creates(DISK_ROOT, Dir, false), Opens(1, ROOT, DISK_ROOT, 1, Missing), Attaches(1, 0, 0, 1, true);
    assert Start(s0);
    StartInv(s0);
    MakeTop(s0);
    NextKeeps(s0, e0);
    MakeDisk(s1);
    NextKeeps(s1, e1);
    OpenDisk(s2);
    NextKeeps(s2, e2);
    var s4 := Attach(s3, 1, 0, 0, 1, true);
    NextAttach(s3, e3);
    assert InUse(s3.descs, 1) by { assert s3.descs[0].refs > 0 && s3.descs[0].node == 1; }
    AttachLedger(s3, 1, 0, 0, 1, true);
    states, events := [s0, s1, s2, s3, s4], [e0, e1, e2, e3];
  }

  lemma MakeTop(ns: Ns)
    requires ns == Table(BLANK, BLANK, Desc(0, 0, 0, 0), Handle(0, 0, 0)) && Inv(ns)
    ensures Next(ns, Creates(ROOT, Dir, false)).0 == Table(TOP, BLANK, Desc(0, 0, 0, 0), Handle(0, 0, 0))
  {
    hide Inv, PathOk, Parent;
    RootOk();
    assert FreeNode(ns.nodes, 0) == 0;
    assert Find(ns.nodes, ROOT) == -1;
  }

  lemma MakeDisk(ns: Ns)
    requires ns == Table(TOP, BLANK, Desc(0, 0, 0, 0), Handle(0, 0, 0)) && Inv(ns)
    ensures Next(ns, Creates(DISK_ROOT, Dir, false)).0 == Table(TOP, DISK, Desc(0, 0, 0, 0), Handle(0, 0, 0))
  {
    hide Inv, PathOk, Parent;
    DiskRootOk();
    assert ROOT != DISK_ROOT by { assert |ROOT| != |DISK_ROOT|; }
    assert Parent(DISK_ROOT) == ROOT by { DiskParent(); }
    assert FreeNode(ns.nodes, 1) == 1;
    assert FindFrom(ns.nodes, DISK_ROOT, 1) == -1;
    assert Find(ns.nodes, ROOT) == 0;
  }

  lemma DiskParent()
    ensures Parent(DISK_ROOT) == ROOT
  {
    var p := DISK_ROOT;
    assert Cut(p, 1) == 1;
    assert Cut(p, 2) == 1;
    assert Cut(p, 3) == 1;
    assert Cut(p, 4) == 1;
    assert Cut(p, 5) == 1;
    assert p[..1] == ROOT;
  }

  lemma OpenDisk(ns: Ns)
    requires ns == Table(TOP, DISK, Desc(0, 0, 0, 0), Handle(0, 0, 0)) && Inv(ns)
    ensures Next(ns, Opens(1, ROOT, DISK_ROOT, 1, Missing)).0 == Table(TOP, DISK, Desc(1, 0, 1, 1), Handle(1, 1, 1))
  {
    hide Inv, PathOk;
    RootOk();
    DiskRootOk();
    assert ROOT != DISK_ROOT by { assert |ROOT| != |DISK_ROOT|; }
    assert Find(ns.nodes, ROOT) == 0;
    assert FindFrom(ns.nodes, DISK_ROOT, 1) == 1;
    assert Find(ns.nodes, DISK_ROOT) == 1;
    assert FreeDesc(ns.descs, 0) == 0 && FreeHandle(ns.handles, 0) == 0;
  }

  lemma NextAttach(ns: Ns, e: Event)
    requires Inv(ns) && e.Attaches? && e.node < |ns.nodes|
    ensures Next(ns, e).0 == Attach(ns, e.node, e.external, e.size, e.tag, e.ro)
  {
    hide Inv, Attach;
  }

  lemma RootOk()
    ensures PathOk(ROOT)
  {
    Utf8.AsciiValid(ROOT, 32);
  }

  lemma DiskRootOk()
    ensures PathOk(DISK_ROOT)
  {
    hide EndOf, Utf8.Valid;
    var p := DISK_ROOT;
    Utf8.AsciiValid(p, 32);
    assert EndOf(p, 1) == 5;
    assert p[1..5] == [100, 105, 115, 107];
    assert NamedAt(p, 0);
  }
}
