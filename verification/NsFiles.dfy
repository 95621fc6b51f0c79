/** Regular files refine byte sequences and pipes refine queues, over every interleaving. */
module NsFiles {
  import opened Bytes
  import opened Paths
  import opened Namespace
  import opened NsInvariant
  import opened NsRuns

  // ------------------------------------------------------------- the ring

  lemma RingDiffers(head: nat, i: nat, j: nat)
    requires i < j < CAP
    ensures (head + i) % CAP != (head + j) % CAP
  {
  }

  lemma QueuePush(x: Node, v: byte)
    requires |x.data| == CAP && x.size < CAP
    ensures Queue(x.(data := x.data[(x.head + x.size) % CAP := v], size := x.size + 1)) == Queue(x) + [v]
  {
    var y := x.(data := x.data[(x.head + x.size) % CAP := v], size := x.size + 1);
    forall i | 0 <= i < y.size
      ensures Queue(y)[i] == (Queue(x) + [v])[i]
    {
      if i < x.size {
        RingDiffers(x.head, i, x.size);
      }
    }
  }

  /** Writing into the ring appends to the queue. */
  lemma {:induction false} QueuePut(x: Node, b: seq<byte>)
    requires |x.data| == CAP && x.size + |b| <= CAP
    ensures Queue(x.(data := RingPut(x.data, x.head + x.size, b), size := x.size + |b|)) == Queue(x) + b
    decreases |b|
  {
    hide Queue;
    if b == [] {
      assert x.(data := RingPut(x.data, x.head + x.size, b), size := x.size + |b|) == x;
    } else {
      var c, v := b[..|b| - 1], b[|b| - 1];
      var y := x.(data := RingPut(x.data, x.head + x.size, c), size := x.size + |c|);
      QueuePut(x, c);
      QueuePush(y, v);
      assert b == c + [v];
      assert x.(data := RingPut(x.data, x.head + x.size, b), size := x.size + |b|) ==
             y.(data := y.data[(y.head + y.size) % CAP := v], size := y.size + 1);
    }
  }

  /** Reading from the ring takes the oldest bytes. */
  lemma QueueTake(x: Node, k: nat)
    requires |x.data| == CAP && k <= x.size <= CAP && x.head < CAP
    ensures Queue(x) == Queue(x)[..k] + Queue(x.(head := (x.head + k) % CAP, size := x.size - k))
  {
    var y := x.(head := (x.head + k) % CAP, size := x.size - k);
    forall i | 0 <= i < y.size
      ensures Queue(y)[i] == Queue(x)[k + i]
    {
      Wrap(x.head + k, i);
    }
  }

  lemma Wrap(a: nat, i: nat)
    ensures (a % CAP + i) % CAP == (a + i) % CAP
  {
    var q, r := a / CAP, a % CAP;
    var p, t := (r + i) / CAP, (r + i) % CAP;
    assert a + i == (q + p) * CAP + t;
  }

  /** A write past the end exposes zeros, never what lay in the data area before. */
  lemma FilePutIs(x: Node, at: nat, b: seq<byte>)
    requires |x.data| == CAP && x.size <= CAP && at + |b| <= CAP && b != []
    ensures Contents(x.(data := FilePut(x.data, x.size, at, b), size := if at + |b| > x.size then at + |b| else x.size)) == Splice(Contents(x), at, b)
  {
    hide Splice;
  }

  lemma TruncateIs(x: Node, n: nat)
    requires |x.data| == CAP && x.size <= CAP && n <= CAP
    ensures Contents(x.(data := x.data[..Min(n, x.size)] + Zeros(CAP - Min(n, x.size)), size := n)) == Resize(Contents(x), n)
  {
    hide Resize;
  }

  // ------------------------------------------------------------ one event

  /** The node an event's handle leads to, or -1. */
  ghost function Target(ns: Ns, owner: nat, h: nat): int
    requires Inv(ns)
  {
    InvLinked(ns);
    var d := DescOf(ns, owner, h);
    if d < 0 then -1 else ns.descs[d].node
  }

  /** What the reader took from node `x`. */
  ghost function Taken(ns: Ns, e: Event, x: nat): seq<byte>
    requires Inv(ns)
  {
    if e.ReadsAt? && Target(ns, e.owner, e.h) == x && Next(ns, e).1.Data? then Next(ns, e).1.bytes else []
  }

  /** What the writer added to node `x`: the part of its bytes that was accepted. */
  ghost function Added(ns: Ns, e: Event, x: nat): seq<byte>
    requires Inv(ns)
  {
    if e.Puts? && Target(ns, e.owner, e.h) == x && Next(ns, e).1.Done? && Next(ns, e).1.value <= |e.bytes| then e.bytes[..Next(ns, e).1.value] else []
  }

  ghost predicate IsPipe(ns: Ns, x: nat) { x < |ns.nodes| && ns.nodes[x].kind == Pipe }
  ghost predicate IsFile(ns: Ns, x: nat) { x < |ns.nodes| && ns.nodes[x].kind == File }

  lemma InvSane(ns: Ns, x: nat)
    requires Inv(ns) && x < |ns.nodes|
    ensures Sane(ns.nodes[x])
  {
  }

  lemma InvUnmoved(ns: Ns, owner: nat, h: nat)
    requires Inv(ns)
    ensures Linked(ns)
    ensures var d := DescOf(ns, owner, h);
            d >= 0 && ns.nodes[ns.descs[d].node].kind == Pipe ==> ns.descs[d].offset == 0
  {
    hide Inv, SlotOf;
    InvLinked(ns);
    InvPipes(ns);
  }

  lemma InvPipes(ns: Ns)
    requires Inv(ns)
    ensures PipesUnmoved(ns)
  {
    hide Linked, AllSane, OnePath, GoodPaths, Owned, RefsExact, WritersExact, PipesUnmoved;
  }

  /** Operations that leave the data of every file and pipe alone. */
  predicate Calm(e: Event) {
    e.Opens? || e.OpensAt? || e.Dups? || e.Closes? || e.Seeks? || e.Reaps? || e.Delegates? || e.Attaches?
  }

  predicate SameData(a: Node, b: Node) {
    b.kind == a.kind && b.path == a.path && b.data == a.data && b.head == a.head && (a.kind == Pipe || a.kind == File ==> b.size == a.size)
  }

  lemma CalmKeepsData(ns: Ns, e: Event, x: nat)
    requires Inv(ns) && x < |ns.nodes| && Calm(e)
    ensures var nt := Next(ns, e).0; x < |nt.nodes| && SameData(ns.nodes[x], nt.nodes[x])
  {
    hide Inv, SameData, Open, OpenAt, Dup, Close, Seek, ReapFrom, Delegate, Attach;
    InvLinked(ns);
    SameDataRefl(ns.nodes[x]);
    match e
    case Opens(o, root, p, m, a) => OpenData(ns, o, root, p, m, a, x);
    case OpensAt(o, h, name, m, a) => OpenAtData(ns, o, h, name, m, a, x);
    case Dups(o, h) => DupData(ns, o, h, x);
    case Closes(o, h) => CloseData(ns, o, h, x);
    case Seeks(o, h, n) => SeekData(ns, o, h, n, x);
    case Reaps(o) => ReapKeepsData(ns, o, 0, x);
    case Attaches(i, ext, n, tag, ro) =>
      if i < |ns.nodes| {
        AttachData(ns, i, ext, n, tag, ro, x);
      }
    case Delegates(o, h, to) => DelegateData(ns, o, h, to, x);
  }

  lemma SameDataRefl(a: Node)
    ensures SameData(a, a)
  {
  }

  lemma OpenData(ns: Ns, owner: nat, root: Path, path: Path, mode: nat, mount: Answer, x: nat)
    requires x < |ns.nodes|
    ensures var nt := Open(ns, owner, root, path, mode, mount).0; x < |nt.nodes| && SameData(ns.nodes[x], nt.nodes[x])
  {
    hide Open, OpenCheck, FreeDesc, FreeHandle, Token;
    OpenIs(ns, owner, root, path, mode, mount);
  }

  lemma OpenAtData(ns: Ns, owner: nat, h: nat, name: Path, mode: nat, mount: Answer, x: nat)
    requires Linked(ns) && x < |ns.nodes|
    ensures var nt := OpenAt(ns, owner, h, name, mode, mount).0; x < |nt.nodes| && SameData(ns.nodes[x], nt.nodes[x])
  {
    hide Open, Relative, BadMode, Reads, Writes, SameData, SlotOf;
    SameDataRefl(ns.nodes[x]);
    var d := DescOf(ns, owner, h);
    if d >= 0 {
      var base := ns.nodes[ns.descs[d].node].path;
      match Relative(base, name)
      case Refused =>
      case Resolved(path) => OpenData(ns, owner, base, path, mode, mount, x);
    }
  }

  lemma DupData(ns: Ns, owner: nat, h: nat, x: nat)
    requires Linked(ns) && x < |ns.nodes|
    ensures Dup(ns, owner, h).0.nodes == ns.nodes
  {
    hide FreeHandle, SlotOf, Token;
  }

  lemma CloseData(ns: Ns, owner: nat, h: nat, x: nat)
    requires Linked(ns) && x < |ns.nodes|
    ensures var nt := Close(ns, owner, h).0; x < |nt.nodes| && SameData(ns.nodes[x], nt.nodes[x])
  {
    hide SlotOf;
  }

  lemma SeekData(ns: Ns, owner: nat, h: nat, n: nat, x: nat)
    requires Linked(ns) && x < |ns.nodes|
    ensures Seek(ns, owner, h, n).0.nodes == ns.nodes
  {
    hide SlotOf;
  }

  lemma AttachData(ns: Ns, i: nat, external: nat, size: nat, tag: nat, ro: bool, x: nat)
    requires x < |ns.nodes| && i < |ns.nodes|
    ensures var nt := Attach(ns, i, external, size, tag, ro); x < |nt.nodes| && SameData(ns.nodes[x], nt.nodes[x])
  {
  }

  lemma DelegateData(ns: Ns, owner: nat, h: nat, to: nat, x: nat)
    ensures Delegate(ns, owner, h, to).nodes == ns.nodes
  {
    hide SlotOf;
  }

  lemma {:induction false} ReapKeepsData(ns: Ns, owner: nat, i: nat, x: nat)
    requires Inv(ns) && i <= |ns.handles| && x < |ns.nodes|
    ensures var nt := ReapFrom(ns, owner, i); x < |nt.nodes| && SameData(ns.nodes[x], nt.nodes[x])
    decreases |ns.handles| - i
  {
    hide Inv;
    if i < |ns.handles| {
      if ns.handles[i].desc != 0 && ns.handles[i].owner == owner {
        InvLinked(ns);
        CloseInv(ns, i);
        ReapKeepsData(CloseSlot(ns, i), owner, i + 1, x);
      } else {
        ReapKeepsData(ns, owner, i + 1, x);
      }
    }
  }

  /** Creating, removing and unmounting never touch a pipe. */
  lemma PipeUntouched(ns: Ns, e: Event, x: nat)
    requires Inv(ns) && IsPipe(ns, x) && (e.Creates? || e.Removes? || e.Unmounts?)
    ensures var nt := Next(ns, e).0; x < |nt.nodes| && nt.nodes[x] == ns.nodes[x]
  {
    hide Inv, CreateError, RemoveCheck, MountInUse, FreeNode;
    InvLinked(ns);
    InvSane(ns, x);
  }

  lemma PipeRead(ns: Ns, e: Event, x: nat)
    requires Inv(ns) && IsPipe(ns, x) && e.ReadsAt?
    ensures var nt := Next(ns, e).0;
            && IsPipe(nt, x) && |nt.nodes[x].data| == CAP && |ns.nodes[x].data| == CAP
            && Taken(ns, e, x) + Queue(nt.nodes[x]) == Queue(ns.nodes[x])
  {
    hide Inv, Queue, Read;
    InvLinked(ns);
    InvSane(ns, x);
    assert Next(ns, e) == Read(ns, e.owner, e.h, e.n, e.answer);
    ReadPipe(ns, e.owner, e.h, e.n, e.answer, x);
  }

  lemma ReadPipe(ns: Ns, owner: nat, h: nat, n: nat, disk: Answer, x: nat)
    requires Linked(ns) && AllSane(ns) && x < |ns.nodes| && ns.nodes[x].kind == Pipe && Sane(ns.nodes[x])
    ensures var (nt, r) := Read(ns, owner, h, n, disk);
            var d := DescOf(ns, owner, h);
            && x < |nt.nodes| && nt.nodes[x].kind == Pipe && |nt.nodes[x].data| == CAP
            && Queue(ns.nodes[x]) == (if d >= 0 && ns.descs[d].node == x && r.Data? then r.bytes else []) + Queue(nt.nodes[x])
  {
    hide Queue, SlotOf, Contents;
    var node := ns.nodes[x];
    assert [] + Queue(node) == Queue(node);
    var d := DescOf(ns, owner, h);
    if d >= 0 && ns.descs[d].node == x && node.size > 0 {
      TakeFromPipe(ns, owner, h, n, disk, x);
    }
  }

  lemma TakeFromPipe(ns: Ns, owner: nat, h: nat, n: nat, disk: Answer, x: nat)
    requires Linked(ns) && AllSane(ns) && x < |ns.nodes| && ns.nodes[x].kind == Pipe && Sane(ns.nodes[x])
    requires DescOf(ns, owner, h) >= 0 && ns.descs[DescOf(ns, owner, h)].node == x && ns.nodes[x].size > 0
    ensures var (nt, r) := Read(ns, owner, h, n, disk);
            && |nt.nodes| == |ns.nodes| && nt.nodes[x].kind == Pipe && |nt.nodes[x].data| == CAP
            && Queue(ns.nodes[x]) == (if r.Data? then r.bytes else []) + Queue(nt.nodes[x])
  {
    hide Queue, SlotOf, Contents, DescOf;
    var node, k := ns.nodes[x], Min(n, ns.nodes[x].size);
    var y := node.(head := (node.head + k) % CAP, size := node.size - k);
    QueueTake(node, k);
    assert [] + Queue(node) == Queue(node);
    if Reads(ns.descs[DescOf(ns, owner, h)].mode) && n > 0 {
      assert Read(ns, owner, h, n, disk) == (SetNode(ns, x, y), Data(Queue(node)[..k]));
    }
  }

  lemma PipeWrite(ns: Ns, e: Event, x: nat)
    requires Inv(ns) && IsPipe(ns, x) && e.Puts?
    ensures var nt := Next(ns, e).0;
            && IsPipe(nt, x) && |nt.nodes[x].data| == CAP && |ns.nodes[x].data| == CAP
            && Queue(nt.nodes[x]) == Queue(ns.nodes[x]) + Added(ns, e, x)
  {
    hide Inv, Queue, Write;
    InvLinked(ns);
    InvSane(ns, x);
    assert Next(ns, e) == Write(ns, e.owner, e.h, e.bytes, e.answer);
    WritePipe(ns, e.owner, e.h, e.bytes, e.answer, x);
  }

  lemma WritePipe(ns: Ns, owner: nat, h: nat, b: seq<byte>, disk: Answer, x: nat)
    requires Linked(ns) && AllSane(ns) && x < |ns.nodes| && ns.nodes[x].kind == Pipe && Sane(ns.nodes[x])
    ensures var (nt, r) := Write(ns, owner, h, b, disk);
            var d := DescOf(ns, owner, h);
            && x < |nt.nodes| && nt.nodes[x].kind == Pipe && |nt.nodes[x].data| == CAP
            && Queue(nt.nodes[x]) == Queue(ns.nodes[x]) + (if d >= 0 && ns.descs[d].node == x && r.Done? && r.value <= |b| then b[..r.value] else [])
  {
    hide Queue, SlotOf, RingPut, FilePut;
    var node := ns.nodes[x];
    QueuePut(node, b[..Min(|b|, CAP - node.size)]);
    assert Queue(node) + [] == Queue(node);
    assert b[..0] == [];
  }

  /** The handle writes and the node may be written. */
  ghost predicate MayWrite(ns: Ns, owner: nat, h: nat)
    requires Inv(ns)
  {
    InvLinked(ns);
    var d := DescOf(ns, owner, h);
    d >= 0 && Writes(ns.descs[d].mode) && !ns.nodes[ns.descs[d].node].readonly
  }

  /** A pipe accepts what fits behind its queue and moves no cursor; full, it blocks. */
  lemma PipeAccepts(ns: Ns, e: Event, x: nat)
    requires Inv(ns) && IsPipe(ns, x) && e.Puts? && e.bytes != []
    requires Target(ns, e.owner, e.h) == x && MayWrite(ns, e.owner, e.h)
    ensures Linked(ns) && |ns.nodes[x].data| == CAP && |Queue(ns.nodes[x])| <= CAP
    ensures var (nt, r) := Next(ns, e);
            var k := Min(|e.bytes|, CAP - |Queue(ns.nodes[x])|);
            && nt.descs == ns.descs && Added(ns, e, x) == e.bytes[..k]
            && r == if k == 0 then Fail(WouldBlock) else Done(k)
  {
    hide Inv, SlotOf, RingPut, FilePut, Queue;
    InvLinked(ns);
    InvSane(ns, x);
    InvUnmoved(ns, e.owner, e.h);
    assert Next(ns, e) == Write(ns, e.owner, e.h, e.bytes, e.answer);
  }

  /** Somebody still has the node open for writing. */
  ghost predicate HasWriter(ns: Ns, x: nat) {
    exists d :: 0 <= d < |ns.descs| && WritesTo(ns.descs[d], x)
  }

  lemma WritersCounted(ns: Ns, x: nat)
    requires Inv(ns) && IsPipe(ns, x)
    ensures ns.nodes[x].writers > 0 <==> HasWriter(ns, x)
  {
    hide Ones, WritesTo, Linked, AllSane, OnePath, GoodPaths, Owned, RefsExact, PipesUnmoved;
    var s := Writing(ns.descs, x);
    if HasWriter(ns, x) {
      var d :| 0 <= d < |ns.descs| && WritesTo(ns.descs[d], x);
      OnesSome(s, d);
    } else {
      OnesNone(s);
    }
  }

  /** The handle reads. */
  ghost predicate MayRead(ns: Ns, owner: nat, h: nat)
    requires Inv(ns)
  {
    InvLinked(ns);
    var d := DescOf(ns, owner, h);
    d >= 0 && Reads(ns.descs[d].mode)
  }

  /**
   A read of a pipe yields the oldest bytes it holds, as many as fit. An empty pipe
   blocks while somebody can still write to it, and is at its end otherwise.
   */
  lemma PipeYields(ns: Ns, e: Event, x: nat)
    requires Inv(ns) && IsPipe(ns, x) && e.ReadsAt? && e.n > 0
    requires Target(ns, e.owner, e.h) == x && MayRead(ns, e.owner, e.h)
    ensures |ns.nodes[x].data| == CAP
    ensures var q, r := Queue(ns.nodes[x]), Next(ns, e).1;
            && (q != [] ==> r == Data(q[..Min(e.n, |q|)]))
            && (q == [] && HasWriter(ns, x) ==> r == Fail(WouldBlock))
            && (q == [] && !HasWriter(ns, x) ==> r == Data([]))
    ensures Next(ns, e).0.descs == ns.descs
  {
    hide Inv, SlotOf, Queue, Contents, HasWriter;
    InvLinked(ns);
    InvSane(ns, x);
    WritersCounted(ns, x);
    assert Next(ns, e) == Read(ns, e.owner, e.h, e.n, e.answer);
  }

  /** A pipe is a queue: across any event, what was taken and what is left is what was there and what was added. */
  lemma PipeStep(ns: Ns, e: Event, x: nat)
    requires Inv(ns) && IsPipe(ns, x)
    ensures var nt := Next(ns, e).0;
            && IsPipe(nt, x) && nt.nodes[x].path == ns.nodes[x].path && |nt.nodes[x].data| == CAP && |ns.nodes[x].data| == CAP
            && Taken(ns, e, x) + Queue(nt.nodes[x]) == Queue(ns.nodes[x]) + Added(ns, e, x)
  {
    hide Inv, Next;
    InvSane(ns, x);
    NextPath(ns, e, x);
    if Calm(e) {
      CalmKeepsData(ns, e, x);
      SameQueue(ns.nodes[x], Next(ns, e).0.nodes[x]);
    } else if e.ReadsAt? {
      PipeRead(ns, e, x);
    } else if e.Puts? {
      PipeWrite(ns, e, x);
    } else if e.Truncates? {
      PipeTruncate(ns, e, x);
    } else {
      PipeUntouched(ns, e, x);
    }
  }

  lemma SameQueue(a: Node, b: Node)
    requires |a.data| == CAP && SameData(a, b) && a.kind == Pipe
    ensures Queue(a) == Queue(b)
  {
  }

  lemma PipeTruncate(ns: Ns, e: Event, x: nat)
    requires Inv(ns) && IsPipe(ns, x) && e.Truncates?
    ensures var nt := Next(ns, e).0; x < |nt.nodes| && nt.nodes[x] == ns.nodes[x]
  {
    hide Inv, SlotOf;
    InvLinked(ns);
    assert Next(ns, e) == Truncate(ns, e.owner, e.h, e.n, e.answer);
  }

  /** Reads, writes, truncations and seeks leave every path alone. */
  lemma NextPath(ns: Ns, e: Event, x: nat)
    requires Inv(ns) && x < |ns.nodes|
    ensures var nt := Next(ns, e).0;
            x < |nt.nodes| && (e.ReadsAt? || e.Puts? || e.Truncates? ==> nt.nodes[x].path == ns.nodes[x].path && nt.nodes[x].kind == ns.nodes[x].kind)
  {
    hide Inv, Ledger, SlotOf, Create, Open, OpenAt, Remove, Dup, Close, Seek, ReapFrom, Unmount, Attach, Delegate, RingPut, FilePut, Queue;
    InvLinked(ns);
    NextKeeps(ns, e);
  }

  // ----------------------------------------------------------- pipes in runs

  ghost function AllTaken(states: seq<Ns>, events: seq<Event>, x: nat, from: nat, to: nat): seq<byte>
    requires IsRun(states, events) && from <= to <= |events|
  {
    if from == to then [] else
      RunKeeps(states, events, to - 1);
      AllTaken(states, events, x, from, to - 1) + Taken(states[to - 1], events[to - 1], x)
  }

  ghost function AllAdded(states: seq<Ns>, events: seq<Event>, x: nat, from: nat, to: nat): seq<byte>
    requires IsRun(states, events) && from <= to <= |events|
  {
    if from == to then [] else
      RunKeeps(states, events, to - 1);
      AllAdded(states, events, x, from, to - 1) + Added(states[to - 1], events[to - 1], x)
  }

  /** Over any stretch of a run the bytes read from a pipe, then its queue, are its old queue, then the bytes written. */
  lemma {:induction false} PipeRun(states: seq<Ns>, events: seq<Event>, x: nat, from: nat, to: nat)
    requires IsRun(states, events) && from <= to <= |events| && IsPipe(states[from], x)
    ensures IsPipe(states[to], x) && |states[from].nodes[x].data| == CAP && |states[to].nodes[x].data| == CAP
    ensures AllTaken(states, events, x, from, to) + Queue(states[to].nodes[x]) == Queue(states[from].nodes[x]) + AllAdded(states, events, x, from, to)
  {
    hide Inv, Next, Queue, Taken, Added, Start;
    if from == to {
      RunKeeps(states, events, to);
      InvSane(states[to], x);
    } else {
      PipeRun(states, events, x, from, to - 1);
      RunKeeps(states, events, to - 1);
      PipeStep(states[to - 1], events[to - 1], x);
      Regroup(AllTaken(states, events, x, from, to - 1), Taken(states[to - 1], events[to - 1], x), Queue(states[to].nodes[x]),
              Queue(states[to - 1].nodes[x]), Added(states[to - 1], events[to - 1], x),
              Queue(states[from].nodes[x]), AllAdded(states, events, x, from, to - 1));
    }
  }

  lemma Regroup(ts: seq<byte>, t: seq<byte>, q: seq<byte>, p: seq<byte>, a: seq<byte>, o: seq<byte>, more: seq<byte>)
    requires t + q == p + a && ts + p == o + more
    ensures ts + t + q == o + (more + a)
  {
    assert ts + t + q == ts + (t + q);
    assert ts + (p + a) == ts + p + a;
    assert o + more + a == o + (more + a);
  }

  // ---------------------------------------------------------- regular files

  /** What can be done to a sequence of bytes. */
  datatype Edit = Keep | Put(at: nat, bytes: seq<byte>) | Cut(size: nat)

  function Apply(was: seq<byte>, edit: Edit): seq<byte> {
    match edit
    case Keep => was
    case Put(at, bytes) => Splice(was, at, bytes)
    case Cut(size) => Resize(was, size)
  }

  /** What an event does to file `x`. */
  ghost function EditOf(ns: Ns, e: Event, x: nat): Edit
    requires Inv(ns)
  {
    InvLinked(ns);
    if e.Puts? && Target(ns, e.owner, e.h) == x && Added(ns, e, x) != [] then
      Put(ns.descs[DescOf(ns, e.owner, e.h)].offset, Added(ns, e, x))
    else if e.Truncates? && Target(ns, e.owner, e.h) == x && Next(ns, e).1.Done? then Cut(e.n)
    else Keep
  }

  /** What an event makes of a file's bytes. */
  ghost function FileAfter(ns: Ns, e: Event, x: nat): seq<byte>
    requires Inv(ns) && IsFile(ns, x)
  {
    InvSane(ns, x);
    Apply(Contents(ns.nodes[x]), EditOf(ns, e, x))
  }

  /** A file's bytes change as the byte-sequence model says, until it is removed. */
  lemma FileStep(ns: Ns, e: Event, x: nat)
    requires Inv(ns) && IsFile(ns, x)
    ensures var nt := Next(ns, e).0;
            || (e.Removes? && x < |nt.nodes| && nt.nodes[x] == BLANK)
            || (&& IsFile(nt, x) && nt.nodes[x].path == ns.nodes[x].path && nt.nodes[x].size <= |nt.nodes[x].data|
                && Contents(nt.nodes[x]) == FileAfter(ns, e, x))
  {
    hide Inv, Next;
    InvSane(ns, x);
    NextPath(ns, e, x);
    if Calm(e) {
      CalmKeepsData(ns, e, x);
    } else if e.ReadsAt? {
      FileRead(ns, e, x);
    } else if e.Puts? {
      FileWrite(ns, e, x);
    } else if e.Truncates? {
      FileTruncate(ns, e, x);
    } else {
      FileTable(ns, e, x);
    }
  }

  /** The bytes `was` after every event of a stretch in turn. */
  ghost function AllEdits(states: seq<Ns>, events: seq<Event>, x: nat, was: seq<byte>, from: nat, to: nat): seq<byte>
    requires IsRun(states, events) && from <= to <= |events|
  {
    if from == to then was
    else
      RunKeeps(states, events, to - 1);
      Apply(AllEdits(states, events, x, was, from, to - 1), EditOf(states[to - 1], events[to - 1], x))
  }

  /** The slot of file `x` is not vacated during the stretch. */
  ghost predicate StaysIn(states: seq<Ns>, x: nat, from: nat, to: nat)
    requires from <= to < |states|
  {
    forall k :: from <= k <= to ==> x < |states[k].nodes| && states[k].nodes[x] != BLANK
  }

  /**
   Over any stretch of a run, until it is removed, a regular file holds its old
   bytes with every write spliced in and every truncation applied, in order.
   */
  lemma {:induction false} FileRun(states: seq<Ns>, events: seq<Event>, x: nat, from: nat, to: nat)
    requires IsRun(states, events) && from <= to <= |events| && IsFile(states[from], x) && StaysIn(states, x, from, to)
    ensures IsFile(states[to], x) && states[to].nodes[x].path == states[from].nodes[x].path
    ensures states[from].nodes[x].size <= |states[from].nodes[x].data| && states[to].nodes[x].size <= |states[to].nodes[x].data|
    ensures Contents(states[to].nodes[x]) == AllEdits(states, events, x, Contents(states[from].nodes[x]), from, to)
  {
    hide Inv, Next, Contents, EditOf, Apply, Start;
    RunKeeps(states, events, to);
    if from == to {
      InvSane(states[to], x);
    } else {
      FileRun(states, events, x, from, to - 1);
      RunKeeps(states, events, to - 1);
      assert states[to].nodes[x] != BLANK;
      FileStep(states[to - 1], events[to - 1], x);
    }
  }

  lemma FileTable(ns: Ns, e: Event, x: nat)
    requires Inv(ns) && IsFile(ns, x) && (e.Creates? || e.Removes? || e.Unmounts?)
    ensures var nt := Next(ns, e).0; x < |nt.nodes| && (nt.nodes[x] == ns.nodes[x] || (e.Removes? && nt.nodes[x] == BLANK))
  {
    hide Inv, CreateError, RemoveCheck, MountInUse, FreeNode;
    InvLinked(ns);
    InvSane(ns, x);
  }

  /** A read returns the bytes at the cursor and moves it past them. */
  lemma FileRead(ns: Ns, e: Event, x: nat)
    requires Inv(ns) && IsFile(ns, x) && e.ReadsAt?
    ensures var nt := Next(ns, e).0; x < |nt.nodes| && nt.nodes[x] == ns.nodes[x]
    ensures ns.nodes[x].size <= |ns.nodes[x].data|
    ensures Linked(ns) && (Target(ns, e.owner, e.h) == x && Reads(ns.descs[DescOf(ns, e.owner, e.h)].mode) ==>
              var (nt, r) := Next(ns, e);
              var d := DescOf(ns, e.owner, e.h);
              var off := ns.descs[d].offset;
              && r.Data? && d < |nt.descs| && nt.descs[d].offset == off + |r.bytes|
              && r.bytes == (if off < ns.nodes[x].size then Contents(ns.nodes[x])[off..off + Min(e.n, ns.nodes[x].size - off)] else []))
  {
    hide Inv, SlotOf;
    InvLinked(ns);
    InvSane(ns, x);
    assert Next(ns, e) == Read(ns, e.owner, e.h, e.n, e.answer);
  }

  lemma FileWrite(ns: Ns, e: Event, x: nat)
    requires Inv(ns) && IsFile(ns, x) && e.Puts?
    ensures var nt := Next(ns, e).0;
            IsFile(nt, x) && nt.nodes[x].size <= |nt.nodes[x].data| && Contents(nt.nodes[x]) == FileAfter(ns, e, x)
  {
    hide Inv, Write, Splice, Contents;
    InvLinked(ns);
    InvSane(ns, x);
    assert Next(ns, e) == Write(ns, e.owner, e.h, e.bytes, e.answer);
    WriteFile(ns, e.owner, e.h, e.bytes, e.answer, x);
  }

  lemma WriteFile(ns: Ns, owner: nat, h: nat, b: seq<byte>, disk: Answer, x: nat)
    requires Linked(ns) && AllSane(ns) && x < |ns.nodes| && ns.nodes[x].kind == File && Sane(ns.nodes[x])
    ensures var (nt, r) := Write(ns, owner, h, b, disk);
            var d := DescOf(ns, owner, h);
            && x < |nt.nodes| && nt.nodes[x].kind == File && nt.nodes[x].size <= |nt.nodes[x].data|
            && Contents(nt.nodes[x]) ==
                 if d >= 0 && ns.descs[d].node == x && r.Done? && r.value <= |b| && b[..r.value] != []
                 then Splice(Contents(ns.nodes[x]), ns.descs[d].offset, b[..r.value]) else Contents(ns.nodes[x])
  {
    hide SlotOf, RingPut, FilePut, Splice, Contents;
    var node, d := ns.nodes[x], DescOf(ns, owner, h);
    if d >= 0 && ns.descs[d].offset < CAP && b != [] {
      FilePutIs(node, ns.descs[d].offset, b[..Min(|b|, CAP - ns.descs[d].offset)]);
    }
    assert b[..0] == [];
  }

  /** A file accepts what fits below its capacity at the cursor, and the cursor moves past it. */
  lemma FileAccepts(ns: Ns, e: Event, x: nat)
    requires Inv(ns) && IsFile(ns, x) && e.Puts? && e.bytes != []
    requires Target(ns, e.owner, e.h) == x && MayWrite(ns, e.owner, e.h)
    ensures Linked(ns)
    ensures var d := DescOf(ns, e.owner, e.h);
            var (nt, r) := Next(ns, e);
            var off := ns.descs[d].offset;
            if off > CAP then nt == ns && r == Fail(Invalid)
            else
              var k := Min(|e.bytes|, CAP - off);
              && Added(ns, e, x) == e.bytes[..k] && r == (if k == 0 then Fail(NoSpace) else Done(k))
              && nt.descs == ns.descs[d := ns.descs[d].(offset := off + k)]
  {
    hide Inv, SlotOf, RingPut, FilePut;
    InvLinked(ns);
    InvSane(ns, x);
    assert Next(ns, e) == Write(ns, e.owner, e.h, e.bytes, e.answer);
  }

  /** Seeking in a file moves exactly that cursor, to any place within its capacity; pipes and the console refuse. */
  lemma SeekMoves(ns: Ns, e: Event, x: nat)
    requires Inv(ns) && e.Seeks? && x < |ns.nodes| && Target(ns, e.owner, e.h) == x
    ensures Linked(ns)
    ensures var (nt, r) := Next(ns, e);
            var d := DescOf(ns, e.owner, e.h);
            match ns.nodes[x].kind
            case File =>
              if e.n <= CAP then r == Done(e.n) && nt == ns.(descs := ns.descs[d := ns.descs[d].(offset := e.n)])
              else r == Fail(Invalid) && nt == ns
            case Disk =>
              if e.n <= ns.nodes[x].size then r == Done(e.n) && nt == ns.(descs := ns.descs[d := ns.descs[d].(offset := e.n)])
              else r == Fail(Invalid) && nt == ns
            case Pipe => r == Fail(NotSeekable) && nt == ns
            case Console => r == Fail(NotSeekable) && nt == ns
            case _ => r == Fail(Invalid) && nt == ns
  {
    hide Inv, SlotOf;
    InvLinked(ns);
    assert Next(ns, e) == Seek(ns, e.owner, e.h, e.n);
  }

  lemma FileTruncate(ns: Ns, e: Event, x: nat)
    requires Inv(ns) && IsFile(ns, x) && e.Truncates?
    ensures var nt := Next(ns, e).0;
            IsFile(nt, x) && nt.nodes[x].size <= |nt.nodes[x].data| && Contents(nt.nodes[x]) == FileAfter(ns, e, x)
  {
    hide Inv, SlotOf, Resize;
    InvLinked(ns);
    InvSane(ns, x);
    assert Next(ns, e) == Truncate(ns, e.owner, e.h, e.n, e.answer);
    if e.n <= CAP {
      TruncateIs(ns.nodes[x], e.n);
    }
  }
}
