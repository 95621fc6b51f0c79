/** The namespace: nodes, open descriptions and owned handles, and what each operation does to them. */
module Namespace {
  import opened Bytes
  import opened Paths

  const CAP := 1024
  const GENERATION_MAX := 0x7f_ffff
  const U32_MAX: nat := 0xffff_ffff

  datatype Kind = NoNode | Dir | File | Pipe | Console | Disk

  datatype Node = Node(path: Path, kind: Kind, readonly: bool, writers: nat, size: nat, head: nat, external: nat, tag: nat, data: seq<byte>)

  /** An open description; live while `refs > 0`. */
  datatype Desc = Desc(node: nat, offset: nat, mode: nat, refs: nat)

  /** A handle slot; `desc` is one more than the description it names, 0 when closed. */
  datatype Handle = Handle(owner: nat, generation: nat, desc: nat)

  /** Calls out of the namespace, in order. */
  datatype Call = Opened(tag: nat) | Closed(tag: nat) | Printed(text: seq<byte>) | Wrote(external: nat, at: nat, bytes: seq<byte>) | Resized(external: nat, to: nat)

  datatype Ns = Ns(nodes: seq<Node>, descs: seq<Desc>, handles: seq<Handle>, calls: seq<Call>)

  datatype Error =
    | Invalid | Exists | NotFound | ReadOnly | NoSpace | Stale | Denied | WouldBlock | NotSeekable | Gone | BadFormat | Backend(code: int)

  datatype Reply = Done(value: nat) | Data(bytes: seq<byte>) | Fail(error: Error)

  /** What a backend answers: absent, an error, or a count with the bytes it moved. */
  datatype Answer = Missing | Refuses(code: int) | Moves(bytes: seq<byte>)

  const BLANK := Node([], NoNode, false, 0, 0, 0, 0, 0, Zeros(CAP))

  predicate Reads(mode: nat) { mode % 2 == 1 }
  predicate Writes(mode: nat) { mode / 2 % 2 == 1 }
  predicate Directory(mode: nat) { mode / 8 % 2 == 1 }
  predicate BadMode(mode: nat) { mode % 4 == 0 || mode >= 16 }

  // --------------------------------------------------------------- lookup

  /** The first node with this path, or -1. */
  function Find(nodes: seq<Node>, path: Path): (i: int)
    ensures -1 <= i < |nodes|
    ensures i >= 0 ==> nodes[i].kind != NoNode && nodes[i].path == path
    ensures i == -1 ==> forall k :: 0 <= k < |nodes| ==> nodes[k].kind == NoNode || nodes[k].path != path
  {
    FindFrom(nodes, path, 0)
  }

  function FindFrom(nodes: seq<Node>, path: Path, i: nat): (r: int)
    requires i <= |nodes|
    ensures r == -1 || i <= r < |nodes|
    ensures r >= 0 ==> nodes[r].kind != NoNode && nodes[r].path == path
    ensures r >= 0 ==> forall k :: i <= k < r ==> nodes[k].kind == NoNode || nodes[k].path != path
    ensures r == -1 ==> forall k :: i <= k < |nodes| ==> nodes[k].kind == NoNode || nodes[k].path != path
    decreases |nodes| - i
  {
    if i == |nodes| then -1
    else if nodes[i].kind != NoNode && nodes[i].path == path then i
    else FindFrom(nodes, path, i + 1)
  }

  function FreeDesc(descs: seq<Desc>, i: nat): (r: int)
    requires i <= |descs|
    ensures r == -1 || (i <= r < |descs| && descs[r].refs == 0)
    ensures r == -1 ==> forall k :: i <= k < |descs| ==> descs[k].refs > 0
    ensures r >= 0 ==> forall k :: i <= k < r ==> descs[k].refs > 0
    decreases |descs| - i
  {
    if i == |descs| then -1 else if descs[i].refs == 0 then i else FreeDesc(descs, i + 1)
  }

  predicate Reusable(h: Handle) { h.desc == 0 && h.generation < GENERATION_MAX }

  function FreeHandle(handles: seq<Handle>, i: nat): (r: int)
    requires i <= |handles|
    ensures r == -1 || (i <= r < |handles| && Reusable(handles[r]))
    ensures r == -1 ==> forall k :: i <= k < |handles| ==> !Reusable(handles[k])
    ensures r >= 0 ==> forall k :: i <= k < r ==> !Reusable(handles[k])
    decreases |handles| - i
  {
    if i == |handles| then -1 else if Reusable(handles[i]) then i else FreeHandle(handles, i + 1)
  }

  /** The wire form of a handle. */
  function Token(h: Handle, i: nat): nat { h.generation * 256 + i + 1 }

  /** The slot a token names for this owner, or -1. */
  function SlotOf(ns: Ns, owner: nat, h: nat): (i: int)
    ensures i == -1 || (0 <= i < |ns.handles| && ns.handles[i].desc != 0 && ns.handles[i].owner == owner)
  {
    var i := h % 256;
    if i == 0 || i > |ns.handles| then -1
    else
      var x := ns.handles[i - 1];
      if x.owner != owner || x.generation != h / 256 || x.desc == 0 then -1 else i - 1
  }

  // ----------------------------------------------------------- operations

  function Parent(p: Path): Path
    requires p != []
  {
    var cut := Cut(p, |p|);
    if cut <= 1 then p[..1] else p[..cut - 1]
  }

  /** One past the last slash before `i`. */
  function Cut(p: Path, i: nat): (c: nat)
    requires 0 < i <= |p|
    ensures 1 <= c <= i && (c > 1 ==> p[c - 1] == SLASH)
    ensures forall k :: c <= k < i ==> p[k] != SLASH
  {
    if i > 1 && p[i - 1] != SLASH then Cut(p, i - 1) else i
  }

  function FreeNode(nodes: seq<Node>, i: nat): (r: int)
    requires i <= |nodes|
    ensures r == -1 || (i <= r < |nodes| && nodes[r].kind == NoNode)
    ensures r == -1 ==> forall k :: i <= k < |nodes| ==> nodes[k].kind != NoNode
    ensures r >= 0 ==> forall k :: i <= k < r ==> nodes[k].kind != NoNode
    decreases |nodes| - i
  {
    if i == |nodes| then -1 else if nodes[i].kind == NoNode then i else FreeNode(nodes, i + 1)
  }

  /** Why a path may not be created, if so. */
  function CreateError(ns: Ns, p: Path, kind: Kind): (r: Reply)
    ensures r == Done(0) ==> PathOk(p) && kind != NoNode && Find(ns.nodes, p) == -1 && FreeNode(ns.nodes, 0) >= 0
  {
    if !PathOk(p) || kind == NoNode then Fail(Invalid)
    else if Find(ns.nodes, p) >= 0 then Fail(Exists)
    else
      var up := Find(ns.nodes, Parent(p));
      if p != ROOT && (up < 0 || ns.nodes[up].kind != Dir) then Fail(NotFound)
      else if p != ROOT && ns.nodes[up].readonly then Fail(ReadOnly)
      else if FreeNode(ns.nodes, 0) < 0 then Fail(NoSpace)
      else Done(0)
  }

  function Create(ns: Ns, p: Path, kind: Kind, ro: bool): (Ns, Reply) {
    var e := CreateError(ns, p, kind);
    if e != Done(0) then (ns, e)
    else (ns.(nodes := ns.nodes[FreeNode(ns.nodes, 0) := BLANK.(path := p, kind := kind, readonly := ro)]), Done(0))
  }

  /** A handle on description `d`, or `NoSpace`. */
  function NewHandle(ns: Ns, owner: nat, d: nat): (Ns, Reply)
    requires d < |ns.descs|
  {
    var i := FreeHandle(ns.handles, 0);
    if i < 0 then (ns, Fail(NoSpace))
    else
      var h := Handle(owner, ns.handles[i].generation + 1, d + 1);
      (ns.(handles := ns.handles[i := h], descs := ns.descs[d := ns.descs[d].(refs := ns.descs[d].refs + 1)]), Done(Token(h, i)))
  }

  /** Checks before an open takes effect; `Done(i)` names the node. */
  function OpenCheck(ns: Ns, owner: nat, root: Path, path: Path, mode: nat): (r: Reply)
    ensures r.Done? ==> r.value < |ns.nodes| && ns.nodes[r.value].kind != NoNode && ns.nodes[r.value].path == path
    ensures r.Done? ==> AtOrBelow(root, path) && owner != 0 && !BadMode(mode) && !(ns.nodes[r.value].readonly && Writes(mode))
    ensures !r.Data?
  {
    if owner == 0 || !PathOk(root) || !PathOk(path) || BadMode(mode) then Fail(Invalid)
    else if !AtOrBelow(root, path) then Fail(Denied)
    else
      var base := Find(ns.nodes, root);
      if base < 0 then Fail(NotFound)
      else if ns.nodes[base].kind != Dir then Fail(Invalid)
      else
        var i := Find(ns.nodes, path);
        if i < 0 then Fail(NotFound)
        else if Directory(mode) && ns.nodes[i].kind != Dir then Fail(Invalid)
        else if ns.nodes[i].readonly && Writes(mode) then Fail(ReadOnly)
        else Done(i)
  }

  function Logged(ns: Ns, c: Call): Ns { ns.(calls := ns.calls + [c]) }

  /** Tells the mount, if the node is on one. */
  function Notify(ns: Ns, tag: nat, c: Call): Ns { if tag == 0 then ns else Logged(ns, c) }

  function Open(ns: Ns, owner: nat, root: Path, path: Path, mode: nat, mount: Answer): (Ns, Reply) {
    var e := OpenCheck(ns, owner, root, path, mode);
    if !e.Done? then (ns, e)
    else
      var i := e.value;
      var d := FreeDesc(ns.descs, 0);
      if d < 0 then (ns, Fail(NoSpace))
      else
        var x := ns.nodes[i];
        if x.tag != 0 && mount.Refuses? then (ns, Fail(Backend(mount.code)))
        else
          var ns1 := Notify(ns, x.tag, Opened(x.tag));
          var ns2 := ns1.(descs := ns1.descs[d := Desc(i, 0, mode, 0)]);
          var (ns3, r) := NewHandle(ns2, owner, d);
          if r.Fail? then (Notify(ns3, x.tag, Closed(x.tag)), r)
          else if x.kind == Pipe && Writes(mode) then (ns3.(nodes := ns3.nodes[i := x.(writers := x.writers + 1)]), r)
          else (ns3, r)
  }

  function DescOf(ns: Ns, owner: nat, h: nat): (d: int)
    ensures d >= 0 ==> SlotOf(ns, owner, h) >= 0 && d == ns.handles[SlotOf(ns, owner, h)].desc - 1
  {
    var s := SlotOf(ns, owner, h);
    if s < 0 then -1 else ns.handles[s].desc - 1
  }

  /** Everything stays in its table: handles name descriptions, live descriptions name nodes. */
  predicate Linked(ns: Ns) {
    && |ns.handles| <= 255
    && (forall i :: 0 <= i < |ns.handles| ==> ns.handles[i].desc <= |ns.descs|)
    && (forall i :: 0 <= i < |ns.handles| && ns.handles[i].desc != 0 ==> ns.descs[ns.handles[i].desc - 1].refs > 0)
    && (forall d :: 0 <= d < |ns.descs| && ns.descs[d].refs > 0 ==> ns.descs[d].node < |ns.nodes| && ns.nodes[ns.descs[d].node].kind != NoNode)
  }

  function OpenAt(ns: Ns, owner: nat, dir: nat, name: Path, mode: nat, mount: Answer): (Ns, Reply)
    requires Linked(ns)
  {
    var d := DescOf(ns, owner, dir);
    if d < 0 then (ns, Fail(Stale))
    else
      var base := ns.nodes[ns.descs[d].node];
      if base.kind != Dir || BadMode(mode) then (ns, Fail(Invalid))
      else if (Reads(mode) && !Reads(ns.descs[d].mode)) || (Writes(mode) && !Writes(ns.descs[d].mode)) then (ns, Fail(Denied))
      else
        match Relative(base.path, name)
        case Refused => (ns, Fail(Invalid))
        case Resolved(path) => Open(ns, owner, base.path, path, mode, mount)
  }

  /** Every directory on the way from position `i` is there, writable and unmounted. */
  function ParentsError(ns: Ns, path: Path, i: nat): (r: Reply)
    requires i <= |path|
    ensures r == Done(0) || r.Fail?
    decreases |path| - i
  {
    if i == |path| then Done(0)
    else if path[i] != SLASH then ParentsError(ns, path, i + 1)
    else
      var up := Find(ns.nodes, path[..i]);
      if up < 0 || ns.nodes[up].kind != Dir then Fail(NotFound)
      else if ns.nodes[up].readonly || ns.nodes[up].tag != 0 then Fail(ReadOnly)
      else ParentsError(ns, path, i + 1)
  }

  predicate InUse(descs: seq<Desc>, node: nat) {
    exists d :: 0 <= d < |descs| && descs[d].refs > 0 && descs[d].node == node
  }

  predicate HasChild(nodes: seq<Node>, path: Path) {
    exists i :: 0 <= i < |nodes| && nodes[i].kind != NoNode && Beneath(path, nodes[i].path)
  }

  predicate Beneath(path: Path, p: Path) { |path| < |p| && path <= p && p[|path|] == SLASH }

  /** What `Remove` would remove; `Done(i)` names the node. */
  function RemoveCheck(ns: Ns, owner: nat, dir: nat, name: Path, kind: Kind): (r: Reply)
    requires Linked(ns)
    ensures r.Done? ==> r.value < |ns.nodes| && ns.nodes[r.value].kind == kind && !InUse(ns.descs, r.value) && ns.nodes[r.value].tag == 0
    ensures r.Done? ==> DescOf(ns, owner, dir) >= 0 && Writes(ns.descs[DescOf(ns, owner, dir)].mode)
    ensures r.Done? ==> ns.nodes[ns.descs[DescOf(ns, owner, dir)].node].kind == Dir
    ensures !r.Data?
  {
    var d := DescOf(ns, owner, dir);
    if d < 0 then Fail(Stale)
    else
      var base := ns.nodes[ns.descs[d].node];
      if base.kind != Dir then Fail(Invalid)
      else if !Writes(ns.descs[d].mode) then Fail(Denied)
      else
        match Relative(base.path, name)
        case Refused => Fail(Invalid)
        case Resolved(path) =>
          if base.readonly || base.tag != 0 then Fail(ReadOnly)
          else if ParentsError(ns, path, Min(|base.path|, |path|)).Fail? then ParentsError(ns, path, Min(|base.path|, |path|))
          else
            var i := Find(ns.nodes, path);
            if i < 0 then Fail(NotFound)
            else if ns.nodes[i].readonly || ns.nodes[i].tag != 0 then Fail(ReadOnly)
            else if ns.nodes[i].kind != kind then Fail(Invalid)
            else if InUse(ns.descs, i) then Fail(Exists)
            else if kind == Dir && HasChild(ns.nodes, path) then Fail(Exists)
            else Done(i)
  }

  function Min(a: nat, b: nat): nat { if a < b then a else b }

  function Remove(ns: Ns, owner: nat, dir: nat, name: Path, kind: Kind): (Ns, Reply)
    requires Linked(ns)
  {
    var e := RemoveCheck(ns, owner, dir, name, kind);
    if e.Done? then (ns.(nodes := ns.nodes[e.value := BLANK]), Done(0)) else (ns, e)
  }

  function Dup(ns: Ns, owner: nat, h: nat): (Ns, Reply)
    requires Linked(ns)
  {
    var d := DescOf(ns, owner, h);
    if d < 0 then (ns, Fail(Stale)) else NewHandle(ns, owner, d)
  }

  /** Dropping the handle in slot `s`. */
  function CloseSlot(ns: Ns, s: nat): Ns
    requires Linked(ns) && s < |ns.handles| && ns.handles[s].desc != 0
  {
    var d := ns.handles[s].desc - 1;
    var left := ns.descs[d].refs - 1;
    var x := ns.nodes[ns.descs[d].node];
    var ns1 := ns.(descs := ns.descs[d := ns.descs[d].(refs := left)], handles := ns.handles[s := ns.handles[s].(desc := 0)]);
    if left > 0 then ns1
    else
      var ns2 := if x.kind == Pipe && Writes(ns.descs[d].mode) && x.writers > 0
                 then ns1.(nodes := ns1.nodes[ns.descs[d].node := x.(writers := x.writers - 1)]) else ns1;
      Notify(ns2, x.tag, Closed(x.tag))
  }

  function Close(ns: Ns, owner: nat, h: nat): (Ns, Reply)
    requires Linked(ns)
  {
    var s := SlotOf(ns, owner, h);
    if s < 0 then (ns, Fail(Stale)) else (CloseSlot(ns, s), Done(0))
  }

  // ------------------------------------------------------------ file bytes

  /** What a regular file holds. */
  function Contents(x: Node): seq<byte>
    requires x.size <= |x.data|
  {
    x.data[..x.size]
  }

  /** What a pipe holds, oldest first. */
  function Queue(x: Node): (q: seq<byte>)
    requires |x.data| == CAP
    ensures |q| == x.size
  {
    seq(x.size, i requires 0 <= i < x.size => x.data[(x.head + i) % CAP])
  }

  /** Bytes written over `s` at `at`, with zeros in any gap. */
  function Splice(s: seq<byte>, at: nat, b: seq<byte>): (r: seq<byte>)
    ensures |r| == if at + |b| > |s| then at + |b| else |s|
    ensures forall i :: 0 <= i < |r| ==> r[i] == if at <= i < at + |b| then b[i - at] else if i < |s| then s[i] else 0
  {
    var front := if at <= |s| then s[..at] else s + Zeros(at - |s|);
    front + b + (if at + |b| < |s| then s[at + |b|..] else [])
  }

  /** The first `n` bytes, zero extended. */
  function Resize(s: seq<byte>, n: nat): (r: seq<byte>)
    ensures |r| == n && forall i :: 0 <= i < n ==> r[i] == if i < |s| then s[i] else 0
  {
    if n <= |s| then s[..n] else s + Zeros(n - |s|)
  }

  /** The ring after `b` went in behind the queue. */
  function RingPut(data: seq<byte>, at: nat, b: seq<byte>): (r: seq<byte>)
    requires |data| == CAP
    ensures |r| == CAP
    decreases |b|
  {
    if b == [] then data else RingPut(data, at, b[..|b| - 1])[(at + |b| - 1) % CAP := b[|b| - 1]]
  }

  /** The data area after a file write. */
  function FilePut(data: seq<byte>, size: nat, at: nat, b: seq<byte>): (r: seq<byte>)
    requires |data| == CAP && at + |b| <= CAP && size <= CAP
    ensures |r| == CAP
  {
    var gap := if at > size then data[..size] + Zeros(at - size) + data[at..] else data;
    gap[..at] + b + gap[at + |b|..]
  }

  predicate Sane(x: Node) {
    && |x.data| == CAP && x.head < CAP
    && (x.kind == File || x.kind == Pipe ==> x.size <= CAP)
    && (x.tag != 0 ==> x.kind == Dir || x.kind == Disk)
  }

  predicate AllSane(ns: Ns) { forall i :: 0 <= i < |ns.nodes| ==> Sane(ns.nodes[i]) }

  function SetNode(ns: Ns, i: nat, x: Node): Ns
    requires i < |ns.nodes|
  {
    ns.(nodes := ns.nodes[i := x])
  }

  function SetOffset(ns: Ns, d: nat, off: nat): Ns
    requires d < |ns.descs|
  {
    ns.(descs := ns.descs[d := ns.descs[d].(offset := off)])
  }

  function Read(ns: Ns, owner: nat, h: nat, n: nat, disk: Answer): (Ns, Reply)
    requires Linked(ns) && AllSane(ns)
  {
    var d := DescOf(ns, owner, h);
    if d < 0 then (ns, Fail(Stale))
    else if !Reads(ns.descs[d].mode) then (ns, Fail(Denied))
    else
      var i, off := ns.descs[d].node, ns.descs[d].offset;
      var x := ns.nodes[i];
      if x.kind == Dir then (ns, Fail(Invalid))
      else if n == 0 then (ns, Data([]))
      else
        match x.kind
        case Console => (ns, Fail(WouldBlock))
        case Disk =>
          (match disk
           case Missing => (ns, Fail(Gone))
           case Refuses(c) => (ns, Fail(Backend(c)))
           case Moves(b) => if |b| > n || off + |b| > U32_MAX then (ns, Fail(BadFormat)) else (SetOffset(ns, d, off + |b|), Data(b)))
        case Pipe =>
          if x.size == 0 then (ns, if x.writers > 0 then Fail(WouldBlock) else Data([]))
          else
            var k := Min(n, x.size);
            (SetNode(ns, i, x.(head := (x.head + k) % CAP, size := x.size - k)), Data(Queue(x)[..k]))
        case File =>
          if off >= x.size then (ns, Data([]))
          else
            var k := Min(n, x.size - off);
            (SetOffset(ns, d, off + k), Data(Contents(x)[off..off + k]))
        case _ => (ns, Fail(Invalid))
  }

  function Write(ns: Ns, owner: nat, h: nat, b: seq<byte>, disk: Answer): (Ns, Reply)
    requires Linked(ns) && AllSane(ns)
  {
    var d := DescOf(ns, owner, h);
    if d < 0 then (ns, Fail(Stale))
    else if !Writes(ns.descs[d].mode) then (ns, Fail(Denied))
    else
      var i, off := ns.descs[d].node, ns.descs[d].offset;
      var x := ns.nodes[i];
      if x.readonly then (ns, Fail(ReadOnly))
      else if x.kind == Dir then (ns, Fail(Invalid))
      else if b == [] then (ns, Done(0))
      else
        match x.kind
        case Console =>
          (match disk
           case Missing => (ns, Fail(Gone))
           case Refuses(c) => (Logged(ns, Printed(b)), Fail(Backend(c)))
           case Moves(m) => (Logged(ns, Printed(b)), Done(|m|)))
        case Disk =>
          if disk.Missing? then (ns, Fail(ReadOnly))
          else
            var ns1 := Logged(ns, Wrote(x.external, off, b));
            (match disk
             case Refuses(c) => (ns1, Fail(Backend(c)))
             case Moves(m) =>
               if |m| > |b| || off + |m| > U32_MAX then (ns1, Fail(BadFormat))
               else (SetNode(SetOffset(ns1, d, off + |m|), i, x.(size := if off + |m| > x.size then off + |m| else x.size)), Done(|m|)))
        case Pipe =>
          if off > CAP then (ns, Fail(Invalid))
          else
            var k := Min(|b|, CAP - x.size);
            if k == 0 then (ns, Fail(WouldBlock))
            else (SetNode(ns, i, x.(data := RingPut(x.data, x.head + x.size, b[..k]), size := x.size + k)), Done(k))
        case File =>
          if off > CAP then (ns, Fail(Invalid))
          else
            var k := Min(|b|, CAP - off);
            if k == 0 then (ns, Fail(NoSpace))
            else (SetNode(SetOffset(ns, d, off + k), i,
                          x.(data := FilePut(x.data, x.size, off, b[..k]), size := if off + k > x.size then off + k else x.size)), Done(k))
        case _ => (ns, Fail(Invalid))
  }

  function Truncate(ns: Ns, owner: nat, h: nat, n: nat, disk: Answer): (Ns, Reply)
    requires Linked(ns) && AllSane(ns)
  {
    var d := DescOf(ns, owner, h);
    if d < 0 then (ns, Fail(Stale))
    else if !Writes(ns.descs[d].mode) then (ns, Fail(Denied))
    else
      var i := ns.descs[d].node;
      var x := ns.nodes[i];
      if x.readonly then (ns, Fail(ReadOnly))
      else if x.kind != File && x.kind != Disk then (ns, Fail(Invalid))
      else if n > U32_MAX then (ns, Fail(NoSpace))
      else if x.kind == Disk then
        (if disk.Missing? then (ns, Fail(ReadOnly))
         else
           var ns1 := Logged(ns, Resized(x.external, n));
           if disk.Refuses? then (ns1, Fail(Backend(disk.code)))
           else if disk.bytes != [] then (ns1, Fail(BadFormat))
           else (SetNode(ns1, i, x.(size := n)), Done(0)))
      else if n > CAP then (ns, Fail(NoSpace))
      else
        var start := Min(n, x.size);
        (SetNode(ns, i, x.(data := x.data[..start] + Zeros(CAP - start), size := n)), Done(0))
  }

  function Seek(ns: Ns, owner: nat, h: nat, off: nat): (Ns, Reply)
    requires Linked(ns)
  {
    var d := DescOf(ns, owner, h);
    if d < 0 then (ns, Fail(Stale))
    else
      var x := ns.nodes[ns.descs[d].node];
      if x.kind == Pipe || x.kind == Console then (ns, Fail(NotSeekable))
      else if (x.kind != File && x.kind != Disk) || off > (if x.kind == Disk then x.size else CAP) then (ns, Fail(Invalid))
      else (SetOffset(ns, d, off), Done(off))
  }

  predicate MountInUse(ns: Ns, tag: nat)
    requires Linked(ns)
  {
    exists d :: 0 <= d < |ns.descs| && ns.descs[d].refs > 0 && ns.nodes[ns.descs[d].node].tag == tag
  }

  const DISK_ROOT: Path := [47, 100, 105, 115, 107]

  function Unmounted(x: Node, tag: nat): Node {
    if x.tag != tag then x else if x.path == DISK_ROOT then x.(tag := 0, readonly := false) else BLANK
  }

  function Unmount(ns: Ns, tag: nat): (Ns, Reply)
    requires Linked(ns)
  {
    if tag == 0 then (ns, Fail(Invalid))
    else if MountInUse(ns, tag) then (ns, Fail(Exists))
    else (ns.(nodes := seq(|ns.nodes|, i requires 0 <= i < |ns.nodes| => Unmounted(ns.nodes[i], tag))), Done(0))
  }

  /** A mount claims a directory or disk node. */
  function Attach(ns: Ns, i: nat, external: nat, size: nat, tag: nat, ro: bool): Ns
    requires i < |ns.nodes|
  {
    if ns.nodes[i].kind == Dir || ns.nodes[i].kind == Disk
    then SetNode(ns, i, ns.nodes[i].(external := external, size := size, tag := tag, readonly := ro)) else ns
  }

  /** The launcher hands one of its own handles to the task it started. */
  function Delegate(ns: Ns, owner: nat, h: nat, to: nat): Ns {
    var s := SlotOf(ns, owner, h);
    if s < 0 then ns else ns.(handles := ns.handles[s := ns.handles[s].(owner := to)])
  }
}
