/** A client of file RPC that was given a read-only directory can only look below it. */
module NsConfine {
  import opened Bytes
  import opened Paths
  import opened Namespace
  import opened NsInvariant
  import opened NsRuns
  import NsFiles

  /** "/dev/console" */
  const CONSOLE_PATH: Path := [47, 100, 101, 118, 47, 99, 111, 110, 115, 111, 108, 101]

  /** Write access to the console, or read access at or below the root. */
  predicate Granted(ns: Ns, d: nat, root: Path) {
    && d < |ns.descs| && ns.descs[d].node < |ns.nodes|
    && var x := ns.nodes[ns.descs[d].node];
       (x.path == CONSOLE_PATH && ns.descs[d].mode == 2) || (AtOrBelow(root, x.path) && !Writes(ns.descs[d].mode))
  }

  ghost predicate Confined(ns: Ns, client: nat, root: Path) {
    forall i :: 0 <= i < |ns.handles| && ns.handles[i].desc != 0 && ns.handles[i].owner == client ==> Granted(ns, ns.handles[i].desc - 1, root)
  }

  ghost predicate HasConsole(ns: Ns) {
    exists x :: 0 <= x < |ns.nodes| && ns.nodes[x].kind == Console && ns.nodes[x].path == CONSOLE_PATH
  }

  /** What the client's own requests become. */
  predicate ByClient(e: Event, client: nat) {
    match e
    case Opens(o, root, p, m, _) => o == client && root == ROOT && p == CONSOLE_PATH && m == 2
    case OpensAt(o, _, _, _, _) => o == client
    case Removes(o, _, _, _) => o == client
    case Dups(o, _) => o == client
    case Closes(o, _) => o == client
    case ReadsAt(o, _, _, _) => o == client
    case Puts(o, _, _, _) => o == client
    case Truncates(o, _, _, _) => o == client
    case Seeks(o, _, _) => o == client
    case _ => false
  }

  /** What anybody else may do meanwhile: anything, but not with the client's handles nor for the client. */
  predicate ByOthers(e: Event, client: nat) {
    match e
    case Opens(o, _, _, _, _) => o != client
    case OpensAt(o, _, _, _, _) => o != client
    case Dups(o, _) => o != client
    case Delegates(_, _, to) => to != client
    case _ => true
  }

  // --------------------------------------------------------- the console

  /** The console node is never removed or replaced. */
  lemma ConsoleStays(ns: Ns, e: Event)
    requires Inv(ns) && HasConsole(ns)
    ensures HasConsole(Next(ns, e).0)
  {
    hide Inv, Next;
    var x :| 0 <= x < |ns.nodes| && ns.nodes[x].kind == Console && ns.nodes[x].path == CONSOLE_PATH;
    NsFiles.NextPath(ns, e, x);
    if NsFiles.Calm(e) {
      NsFiles.CalmKeepsData(ns, e, x);
    } else if e.Creates? || e.Removes? || e.Unmounts? {
      ConsoleTable(ns, e, x);
    }
    assert Next(ns, e).0.nodes[x].kind == Console;
  }

  lemma ConsoleTable(ns: Ns, e: Event, x: nat)
    requires Inv(ns) && x < |ns.nodes| && ns.nodes[x].kind == Console && (e.Creates? || e.Removes? || e.Unmounts?)
    ensures var nt := Next(ns, e).0; x < |nt.nodes| && nt.nodes[x] == ns.nodes[x]
  {
    hide Inv, CreateError, RemoveCheck, MountInUse, FreeNode;
    InvLinked(ns);
    NsFiles.InvSane(ns, x);
  }

  /** Whatever is at the console's path is the console. */
  lemma OnlyConsole(ns: Ns, y: nat)
    requires Inv(ns) && HasConsole(ns) && y < |ns.nodes| && ns.nodes[y].kind != NoNode && ns.nodes[y].path == CONSOLE_PATH
    ensures ns.nodes[y].kind == Console
  {
    hide RefsExact, WritersExact, AllSane, GoodPaths, Linked;
    var x :| 0 <= x < |ns.nodes| && ns.nodes[x].kind == Console && ns.nodes[x].path == CONSOLE_PATH;
  }

  // --------------------------------------------------------- confinement

  /** A handle kept across an event still names what it named. */
  lemma HandleKept(ns: Ns, nt: Ns, i: nat, root: Path)
    requires Inv(ns) && Inv(nt) && Stable(ns, nt) && i < |ns.handles| == |nt.handles|
    requires ns.handles[i].desc == nt.handles[i].desc != 0 && Granted(ns, ns.handles[i].desc - 1, root)
    ensures Granted(nt, nt.handles[i].desc - 1, root)
  {
    hide RefsExact, WritersExact, AllSane, GoodPaths, OnePath;
    assert SameDesc(ns, nt, ns.handles[i].desc - 1);
  }

  /** The client's live handles after the event were there before, naming the same descriptions. */
  ghost predicate NoNew(ns: Ns, nt: Ns, client: nat) {
    && |nt.handles| == |ns.handles|
    && forall i :: 0 <= i < |ns.handles| && nt.handles[i].desc != 0 && nt.handles[i].owner == client ==>
         ns.handles[i].desc == nt.handles[i].desc && ns.handles[i].owner == client
  }

  lemma NoNewConfined(ns: Ns, nt: Ns, client: nat, root: Path)
    requires Inv(ns) && Inv(nt) && Stable(ns, nt) && NoNew(ns, nt, client) && Confined(ns, client, root)
    ensures Confined(nt, client, root)
  {
    hide Inv, Stable, Granted;
    forall i | 0 <= i < |nt.handles| && nt.handles[i].desc != 0 && nt.handles[i].owner == client
      ensures Granted(nt, nt.handles[i].desc - 1, root)
    {
      HandleKept(ns, nt, i, root);
    }
  }

  /** Events that give nobody a handle on behalf of the client. */
  lemma QuietHandles(ns: Ns, e: Event, client: nat)
    requires Inv(ns) && (ByOthers(e, client) || (ByClient(e, client) && !e.Opens? && !e.OpensAt? && !e.Dups?))
    ensures NoNew(ns, Next(ns, e).0, client)
  {
    hide Inv, OpenCheck, FreeDesc, FreeHandle, SlotOf, Relative, CreateError, RemoveCheck, MountInUse, ReapFrom, Token, RingPut, FilePut, Queue, CloseSlot, Read, Write, Truncate, Open, OpenAt;
    InvLinked(ns);
    match e
    case Opens(o, root, p, m, a) => OpenHandles(ns, o, root, p, m, a);
    case OpensAt(o, h, name, m, a) => OpenAtHandles(ns, o, h, name, m, a);
    case Closes(o, h) =>
      if SlotOf(ns, o, h) >= 0 {
        CloseHandles(ns, SlotOf(ns, o, h));
      }
    case ReadsAt(o, h, n, a) => ReadHandles(ns, o, h, n, a);
    case Puts(o, h, b, a) => WriteHandles(ns, o, h, b, a);
    case Truncates(o, h, n, a) => TruncateHandles(ns, o, h, n, a);
    case Reaps(o) =>
      ReapKeeps(ns, o, 0);
      StableSizes(ns, ReapFrom(ns, o, 0));
    case _ =>
  }

  /** At most one slot changes, and it is the opener's. */
  predicate OneNew(ns: Ns, nt: Ns, owner: nat) {
    |nt.handles| == |ns.handles| && forall i :: 0 <= i < |ns.handles| ==> nt.handles[i] == ns.handles[i] || nt.handles[i].owner == owner
  }

  lemma OpenHandles(ns: Ns, owner: nat, root: Path, path: Path, mode: nat, mount: Answer)
    ensures OneNew(ns, Open(ns, owner, root, path, mode, mount).0, owner)
  {
    hide Open, OpenCheck, FreeDesc, FreeHandle, Token;
    OpenIs(ns, owner, root, path, mode, mount);
  }

  lemma OpenAtHandles(ns: Ns, owner: nat, h: nat, name: Path, mode: nat, mount: Answer)
    requires Linked(ns)
    ensures OneNew(ns, OpenAt(ns, owner, h, name, mode, mount).0, owner)
  {
    hide Open, Relative, BadMode, Reads, Writes, SlotOf;
    var d := DescOf(ns, owner, h);
    if d >= 0 {
      var base := ns.nodes[ns.descs[d].node].path;
      match Relative(base, name)
      case Refused =>
      case Resolved(path) => OpenHandles(ns, owner, base, path, mode, mount);
    }
  }

  lemma ReadHandles(ns: Ns, owner: nat, h: nat, n: nat, disk: Answer)
    requires Linked(ns) && AllSane(ns)
    ensures Read(ns, owner, h, n, disk).0.handles == ns.handles
  {
    hide SlotOf, Queue, Contents;
  }

  lemma WriteHandles(ns: Ns, owner: nat, h: nat, b: seq<byte>, disk: Answer)
    requires Linked(ns) && AllSane(ns)
    ensures Write(ns, owner, h, b, disk).0.handles == ns.handles
  {
    hide SlotOf, RingPut, FilePut;
  }

  lemma TruncateHandles(ns: Ns, owner: nat, h: nat, n: nat, disk: Answer)
    requires Linked(ns) && AllSane(ns)
    ensures Truncate(ns, owner, h, n, disk).0.handles == ns.handles
  {
    hide SlotOf;
  }

  /** A successful open by the client names what its path says. */
  lemma OpenGranted(ns: Ns, client: nat, base: Path, path: Path, mode: nat, mount: Answer, root: Path)
    requires Inv(ns) && Confined(ns, client, root)
    requires (path == CONSOLE_PATH && mode == 2) || (AtOrBelow(root, path) && !Writes(mode))
    ensures Confined(Open(ns, client, base, path, mode, mount).0, client, root)
  {
    hide Inv, Stable, Open, OpenCheck, FreeDesc, FreeHandle, Token, Ledger;
    var nt := Open(ns, client, base, path, mode, mount).0;
    OpenKeeps(ns, client, base, path, mode, mount);
    OpenIs(ns, client, base, path, mode, mount);
    var e, d, j := OpenCheck(ns, client, base, path, mode), FreeDesc(ns.descs, 0), FreeHandle(ns.handles, 0);
    if e.Done? && d >= 0 && !(ns.nodes[e.value].tag != 0 && mount.Refuses?) && j >= 0 {
      forall i | 0 <= i < |nt.handles| && nt.handles[i].desc != 0 && nt.handles[i].owner == client
        ensures Granted(nt, nt.handles[i].desc - 1, root)
      {
        if i != j {
          HandleKept(ns, nt, i, root);
        }
      }
    } else {
      NoNewConfined(ns, nt, client, root);
    }
  }

  lemma OpenAtConfined(ns: Ns, client: nat, h: nat, name: Path, mode: nat, mount: Answer, root: Path)
    requires Inv(ns) && Linked(ns) && HasConsole(ns) && Confined(ns, client, root) && PathOk(root)
    ensures Confined(OpenAt(ns, client, h, name, mode, mount).0, client, root)
  {
    hide Inv, Open, Relative, PathOk, AtOrBelow, HasConsole;
    var d := DescOf(ns, client, h);
    if d >= 0 {
      var base := ns.nodes[ns.descs[d].node];
      assert Granted(ns, d, root);
      if base.kind == Dir && !(Writes(mode) && !Writes(ns.descs[d].mode)) {
        if base.path == CONSOLE_PATH {
          OnlyConsole(ns, ns.descs[d].node);
        }
        assert PathOk(base.path) by { NodePath(ns, ns.descs[d].node); }
        match Relative(base.path, name)
        case Refused =>
        case Resolved(path) =>
          BelowTrans(root, base.path, path);
          OpenGranted(ns, client, base.path, path, mode, mount, root);
      }
    }
  }

  lemma NodePath(ns: Ns, x: nat)
    requires Inv(ns) && x < |ns.nodes| && ns.nodes[x].kind != NoNode
    ensures PathOk(ns.nodes[x].path)
  {
    hide PathOk, RefsExact, WritersExact, AllSane, OnePath;
  }

  lemma DupConfined(ns: Ns, client: nat, h: nat, root: Path)
    requires Inv(ns) && Linked(ns) && Confined(ns, client, root)
    ensures Confined(Dup(ns, client, h).0, client, root)
  {
    hide Inv, FreeHandle, Token, AtOrBelow;
    var d := DescOf(ns, client, h);
    if d >= 0 {
      assert Granted(ns, d, root);
    }
  }

  /** Nobody's event, in whatever order, takes the client out of its root. */
  lemma StepConfined(ns: Ns, e: Event, client: nat, root: Path)
    requires Inv(ns) && HasConsole(ns) && Confined(ns, client, root) && PathOk(root)
    requires ByClient(e, client) || ByOthers(e, client)
    ensures Confined(Next(ns, e).0, client, root)
  {
    hide Inv, Confined, HasConsole, PathOk, Stable, NoNew, Ledger, Open, OpenAt, Dup, Create, Remove, Close, Read, Write, Truncate, Seek, ReapFrom, Unmount, Attach, Delegate;
    InvLinked(ns);
    if ByOthers(e, client) || !(e.Opens? || e.OpensAt? || e.Dups?) {
      QuietHandles(ns, e, client);
      NextKeeps(ns, e);
      NoNewConfined(ns, Next(ns, e).0, client, root);
    } else if e.Opens? {
      OpenGranted(ns, client, e.root, e.path, e.mode, e.answer, root);
    } else if e.OpensAt? {
      OpenAtConfined(ns, client, e.h, e.name, e.mode, e.answer, root);
    } else {
      DupConfined(ns, client, e.h, root);
    }
  }

  // -------------------------------------------------------- harmlessness

  /** No node is made, removed, renamed or written; bytes may leave the front of a pipe; no backend is told to write. */
  predicate Harmless(ns: Ns, nt: Ns) {
    && |nt.nodes| == |ns.nodes|
    && (forall x :: 0 <= x < |ns.nodes| ==> nt.nodes[x] == ns.nodes[x] || Drained(ns.nodes[x], nt.nodes[x]))
    && ns.calls <= nt.calls && forall k :: |ns.calls| <= k < |nt.calls| ==> Quiet(nt.calls[k])
  }

  predicate Drained(a: Node, b: Node) {
    a.kind == Pipe && |a.data| == CAP && b == a.(head := b.head, size := b.size) && b.size <= a.size && Queue(b) == Queue(a)[a.size - b.size..]
  }

  predicate Quiet(c: Call) { c.Opened? || c.Closed? || c.Printed? }

  lemma ClientGranted(ns: Ns, client: nat, h: nat, root: Path)
    requires Confined(ns, client, root) && DescOf(ns, client, h) >= 0
    ensures Granted(ns, DescOf(ns, client, h), root)
  {
    hide Granted;
  }

  /** The client's write access leads to the console only. */
  lemma WritesConsole(ns: Ns, client: nat, h: nat, d: int, root: Path)
    requires Inv(ns) && HasConsole(ns) && Confined(ns, client, root) && d == DescOf(ns, client, h) >= 0
    ensures d < |ns.descs| && ns.descs[d].node < |ns.nodes|
    ensures Writes(ns.descs[d].mode) ==> ns.nodes[ns.descs[d].node].kind == Console
  {
    hide Inv, HasConsole, AtOrBelow, Confined, SlotOf, DescOf;
    ClientGranted(ns, client, h, root);
    if Writes(ns.descs[d].mode) {
      OpenNode(ns, client, h, d);
      OnlyConsole(ns, ns.descs[d].node);
    }
  }

  /** A description reached through a handle is live. */
  lemma OpenNode(ns: Ns, owner: nat, h: nat, d: int)
    requires Inv(ns) && d == DescOf(ns, owner, h) >= 0
    ensures d < |ns.descs| && ns.descs[d].node < |ns.nodes| && ns.nodes[ns.descs[d].node].kind != NoNode
  {
    hide SlotOf, RefsExact, WritersExact, AllSane, GoodPaths, OnePath;
  }

  lemma OpenHarmless(ns: Ns, client: nat, base: Path, path: Path, mode: nat, mount: Answer)
    requires Inv(ns) && HasConsole(ns) && (path == CONSOLE_PATH || !Writes(mode))
    ensures Harmless(ns, Open(ns, client, base, path, mode, mount).0)
  {
    hide Inv, HasConsole, Open, OpenCheck, FreeDesc, FreeHandle, Token, Drained;
    OpenIs(ns, client, base, path, mode, mount);
    var e := OpenCheck(ns, client, base, path, mode);
    if e.Done? && path == CONSOLE_PATH {
      OnlyConsole(ns, e.value);
    }
  }

  lemma OpenAtHarmless(ns: Ns, client: nat, h: nat, name: Path, mode: nat, mount: Answer, root: Path)
    requires Inv(ns) && Linked(ns) && HasConsole(ns) && Confined(ns, client, root)
    ensures Harmless(ns, OpenAt(ns, client, h, name, mode, mount).0)
  {
    hide Inv, HasConsole, Confined, Open, Relative, Harmless;
    HarmlessRefl(ns);
    var d := DescOf(ns, client, h);
    if d >= 0 {
      WritesConsole(ns, client, h, DescOf(ns, client, h), root);
      var base := ns.nodes[ns.descs[d].node];
      if base.kind == Dir && !(Writes(mode) && !Writes(ns.descs[d].mode)) {
        match Relative(base.path, name)
        case Refused =>
        case Resolved(path) => OpenHarmless(ns, client, base.path, path, mode, mount);
      }
    }
  }

  lemma HarmlessRefl(ns: Ns)
    ensures Harmless(ns, ns)
  {
  }

  lemma RemoveHarmless(ns: Ns, client: nat, h: nat, name: Path, kind: Kind, root: Path)
    requires Inv(ns) && Linked(ns) && HasConsole(ns) && Confined(ns, client, root)
    ensures Remove(ns, client, h, name, kind).0 == ns
  {
    hide Inv, HasConsole, Confined, RemoveCheck;
    if DescOf(ns, client, h) >= 0 {
      WritesConsole(ns, client, h, DescOf(ns, client, h), root);
    }
  }

  lemma CloseHarmless(ns: Ns, client: nat, h: nat, root: Path)
    requires Inv(ns) && Linked(ns) && HasConsole(ns) && Confined(ns, client, root)
    ensures Harmless(ns, Close(ns, client, h).0)
  {
    hide Inv, HasConsole, Confined, SlotOf, Drained;
    if DescOf(ns, client, h) >= 0 {
      WritesConsole(ns, client, h, DescOf(ns, client, h), root);
    }
  }

  lemma WriteHarmless(ns: Ns, client: nat, h: nat, b: seq<byte>, disk: Answer, root: Path)
    requires Inv(ns) && Linked(ns) && AllSane(ns) && HasConsole(ns) && Confined(ns, client, root)
    ensures Harmless(ns, Write(ns, client, h, b, disk).0)
  {
    hide Inv, HasConsole, Confined, SlotOf, Drained, RingPut, FilePut;
    if DescOf(ns, client, h) >= 0 {
      WritesConsole(ns, client, h, DescOf(ns, client, h), root);
    }
  }

  lemma TruncateHarmless(ns: Ns, client: nat, h: nat, n: nat, disk: Answer, root: Path)
    requires Inv(ns) && Linked(ns) && AllSane(ns) && HasConsole(ns) && Confined(ns, client, root)
    ensures Truncate(ns, client, h, n, disk).0 == ns
  {
    hide Inv, HasConsole, Confined, SlotOf;
    if DescOf(ns, client, h) >= 0 {
      WritesConsole(ns, client, h, DescOf(ns, client, h), root);
    }
  }

  lemma ReadHarmless(ns: Ns, client: nat, h: nat, n: nat, disk: Answer)
    requires Linked(ns) && AllSane(ns)
    ensures Harmless(ns, Read(ns, client, h, n, disk).0)
  {
    hide SlotOf, Queue, Contents, Drained;
    var d := DescOf(ns, client, h);
    if d >= 0 {
      var x := ns.nodes[ns.descs[d].node];
      assert Sane(x);
      if x.kind == Pipe && x.size > 0 {
        TakeDrains(x, Min(n, x.size));
      }
    }
  }

  lemma TakeDrains(x: Node, k: nat)
    requires Sane(x) && x.kind == Pipe && k <= x.size
    ensures Drained(x, x.(head := (x.head + k) % CAP, size := x.size - k))
  {
    hide Queue;
    NsFiles.QueueTake(x, k);
  }

  /** No request of the client changes a node's path or type, the set of nodes, or any file: it can only take bytes from pipes. */
  lemma ClientHarmless(ns: Ns, e: Event, client: nat, root: Path)
    requires Inv(ns) && HasConsole(ns) && Confined(ns, client, root) && ByClient(e, client)
    ensures Harmless(ns, Next(ns, e).0)
  {
    hide Inv, HasConsole, Confined, Open, OpenAt, Dup, Remove, Close, Read, Write, Truncate, Seek, Harmless;
    InvLinked(ns);
    HarmlessRefl(ns);
    match e
    case Opens(o, base, p, m, a) => OpenHarmless(ns, client, base, p, m, a);
    case OpensAt(o, h, name, m, a) => OpenAtHarmless(ns, client, h, name, m, a, root);
    case Removes(o, h, name, k) => RemoveHarmless(ns, client, h, name, if k == Dir then Dir else File, root);
    case Dups(o, h) => DupHarmless(ns, client, h);
    case Closes(o, h) => CloseHarmless(ns, client, h, root);
    case ReadsAt(o, h, n, a) => ReadHarmless(ns, client, h, n, a);
    case Puts(o, h, b, a) => WriteHarmless(ns, client, h, b, a, root);
    case Truncates(o, h, n, a) => TruncateHarmless(ns, client, h, n, a, root);
    case Seeks(o, h, n) => SeekHarmless(ns, client, h, n);
  }

  lemma DupHarmless(ns: Ns, client: nat, h: nat)
    requires Linked(ns)
    ensures Harmless(ns, Dup(ns, client, h).0)
  {
    hide SlotOf, FreeHandle, Token;
  }

  lemma SeekHarmless(ns: Ns, client: nat, h: nat, n: nat)
    requires Linked(ns)
    ensures Harmless(ns, Seek(ns, client, h, n).0)
  {
    hide SlotOf;
  }

  /** The launcher's grant: a directory handle without write access, given to a task that has none. */
  lemma GrantConfines(ns: Ns, launcher: nat, h: nat, client: nat, d: int)
    requires Inv(ns) && d == DescOf(ns, launcher, h) >= 0 && d < |ns.descs| && ns.descs[d].node < |ns.nodes| && !Writes(ns.descs[d].mode)
    requires forall i :: 0 <= i < |ns.handles| && ns.handles[i].desc != 0 ==> ns.handles[i].owner != client
    ensures Confined(Delegate(ns, launcher, h, client), client, ns.nodes[ns.descs[d].node].path)
  {
    hide Inv, SlotOf;
  }

  /** A relative open grants no more than the directory handle has, and nothing outside the directory. */
  lemma OpenAtGrants(ns: Ns, owner: nat, dir: nat, name: Path, mode: nat, mount: Answer)
    requires Linked(ns)
    ensures var (nt, r) := OpenAt(ns, owner, dir, name, mode, mount);
            var from, d, j := DescOf(ns, owner, dir), FreeDesc(ns.descs, 0), FreeHandle(ns.handles, 0);
            r.Done? ==>
              && from >= 0 && 0 <= d < |nt.descs| && 0 <= j < |nt.handles| && nt.descs[d].node < |nt.nodes|
              && r.value == Token(nt.handles[j], j) && nt.handles[j].desc == d + 1 && nt.handles[j].owner == owner
              && (Reads(nt.descs[d].mode) ==> Reads(ns.descs[from].mode)) && (Writes(nt.descs[d].mode) ==> Writes(ns.descs[from].mode))
              && AtOrBelow(ns.nodes[ns.descs[from].node].path, nt.nodes[nt.descs[d].node].path)
  {
    hide Open, OpenCheck, Relative, BadMode, Reads, Writes, SlotOf, FreeDesc, FreeHandle, Token, AtOrBelow;
    var from := DescOf(ns, owner, dir);
    if from >= 0 {
      var base := ns.nodes[ns.descs[from].node].path;
      match Relative(base, name)
      case Refused =>
      case Resolved(path) => OpenIs(ns, owner, base, path, mode, mount);
    }
  }
}
