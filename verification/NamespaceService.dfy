/** The namespace tables updated in place, operation by operation, and the file request dispatcher over them. */
module NamespaceService {
  import opened Bytes
  import opened Paths
  import opened Namespace
  import opened NsInvariant
  import opened NsRuns
  import opened FileRpc

  class Service {
    var nodes: seq<Node>
    var descs: seq<Desc>
    var handles: seq<Handle>
    ghost var calls: seq<Call>

    ghost function N(): Ns
      reads this
    {
      Ns(nodes, descs, handles, calls)
    }

    ghost predicate Valid()
      reads this
    {
      Inv(N())
    }

    constructor (nodeCount: nat, descCount: nat, handleCount: nat)
      requires handleCount <= 255
      ensures Valid() && Start(N()) && Ledger(N())
      ensures |nodes| == nodeCount && |descs| == descCount && |handles| == handleCount
    {
      nodes := seq(nodeCount, _ => BLANK);
      descs := seq(descCount, _ => Desc(0, 0, 0, 0));
      handles := seq(handleCount, _ => Handle(0, 0, 0));
      calls := [];
      new;
      StartInv(N());
    }

    method FindNode(path: Path) returns (r: int)
      ensures r == Find(nodes, path)
    {
      for i := 0 to |nodes|
        invariant FindFrom(nodes, path, 0) == FindFrom(nodes, path, i)
      {
        if nodes[i].kind != NoNode && nodes[i].path == path {
          return i;
        }
      }
      return -1;
    }

    /** The directory part of a path. */
    method ParentOf(p: Path) returns (parent: Path)
      requires p != []
      ensures parent == Parent(p)
    {
      var cut := |p|;
      while cut > 1 && p[cut - 1] != SLASH
        invariant 1 <= cut <= |p| && Cut(p, |p|) == Cut(p, cut)
      {
        cut := cut - 1;
      }
      return p[..if cut == 1 then 1 else cut - 1];
    }

    method MakeNode(p: Path, kind: Kind, ro: bool) returns (r: Reply)
      requires Valid()
      modifies this`nodes
      ensures (N(), r) == Create(old(N()), p, kind, ro) && Valid() && Kept(old(N()), N())
    {
      hide Inv, Find, FreeNode, PathOk, Parent, Kept;
      CreateKeeps(N(), p, kind, ro);
      KeptInv(N(), Create(N(), p, kind, ro).0);
      var ok := CheckPath(p);
      if !ok || kind == NoNode {
        return Fail(Invalid);
      }
      var at := FindNode(p);
      if at >= 0 {
        return Fail(Exists);
      }
      assert p != [] by { PathNonempty(p); }
      if p != ROOT {
        var parent := ParentOf(p);
        var up := FindNode(parent);
        if up < 0 || nodes[up].kind != Dir {
          return Fail(NotFound);
        }
        if nodes[up].readonly {
          return Fail(ReadOnly);
        }
      }
      var free := FindFreeNode();
      if free < 0 {
        return Fail(NoSpace);
      }
      nodes := nodes[free := BLANK.(path := p, kind := kind, readonly := ro)];
      return Done(0);
    }

    method FindFreeNode() returns (r: int)
      ensures r == FreeNode(nodes, 0)
    {
      for i := 0 to |nodes|
        invariant FreeNode(nodes, 0) == FreeNode(nodes, i)
      {
        if nodes[i].kind == NoNode {
          return i;
        }
      }
      return -1;
    }

    method FindFreeDesc() returns (r: int)
      ensures r == FreeDesc(descs, 0)
    {
      for i := 0 to |descs|
        invariant FreeDesc(descs, 0) == FreeDesc(descs, i)
      {
        if descs[i].refs == 0 {
          return i;
        }
      }
      return -1;
    }

    /** Takes the first reusable slot; generations only grow. */
    method TakeHandle(owner: nat, d: nat) returns (r: Reply)
      requires d < |descs|
      modifies this`handles, this`descs
      ensures (N(), r) == NewHandle(old(N()), owner, d)
    {
      for i := 0 to |handles|
        invariant N() == old(N()) && FreeHandle(handles, 0) == FreeHandle(handles, i)
      {
        if handles[i].desc == 0 && handles[i].generation < GENERATION_MAX {
          handles := handles[i := Handle(owner, handles[i].generation + 1, d + 1)];
          descs := descs[d := descs[d].(refs := descs[d].refs + 1)];
          return Done(Token(handles[i], i));
        }
      }
      return Fail(NoSpace);
    }

    method OpenPath(owner: nat, root: Path, path: Path, mode: nat, mount: Answer) returns (r: Reply)
      requires Valid()
      modifies this
      ensures (N(), r) == Open(old(N()), owner, root, path, mode, mount) && Valid() && Kept(old(N()), N())
    {
      hide Inv, Find, FreeDesc, NewHandle, PathOk, AtOrBelow, BadMode, Writes, Directory, Kept, OpenCheck;
      OpenKeeps(N(), owner, root, path, mode, mount);
      KeptInv(N(), Open(N(), owner, root, path, mode, mount).0);
      var c := MayOpen(owner, root, path, mode);
      if !c.Done? {
        return c;
      }
      var i := c.value;
      var d := FindFreeDesc();
      if d < 0 {
        return Fail(NoSpace);
      }
      var x := nodes[i];
      if x.tag != 0 {
        if mount.Refuses? {
          return Fail(Backend(mount.code));
        }
        calls := calls + [Opened(x.tag)];
      }
      descs := descs[d := Desc(i, 0, mode, 0)];
      ghost var ns := N();
      NewHandleShape(ns, owner, d);
      r := TakeHandle(owner, d);
      if r.Fail? {
        if x.tag != 0 {
          calls := calls + [Closed(x.tag)];
        }
        return;
      }
      if x.kind == Pipe && Writes(mode) {
        nodes := nodes[i := x.(writers := x.writers + 1)];
      }
    }

    method MayOpen(owner: nat, root: Path, path: Path, mode: nat) returns (r: Reply)
      ensures r == OpenCheck(N(), owner, root, path, mode)
    {
      hide Find, PathOk, AtOrBelow, BadMode, Writes, Directory;
      var ok := CheckPath(root);
      var fine := CheckPath(path);
      if owner == 0 || !ok || !fine || BadMode(mode) {
        return Fail(Invalid);
      }
      if !AtOrBelow(root, path) {
        return Fail(Denied);
      }
      var base := FindNode(root);
      if base < 0 {
        return Fail(NotFound);
      }
      if nodes[base].kind != Dir {
        return Fail(Invalid);
      }
      var i := FindNode(path);
      if i < 0 {
        return Fail(NotFound);
      }
      if Directory(mode) && nodes[i].kind != Dir {
        return Fail(Invalid);
      }
      if nodes[i].readonly && Writes(mode) {
        return Fail(ReadOnly);
      }
      return Done(i);
    }

    method OpenRelative(owner: nat, dir: nat, name: Path, mode: nat, mount: Answer) returns (r: Reply)
      requires Valid()
      modifies this
      ensures (N(), r) == OpenAt(old(N()), owner, dir, name, mode, mount) && Valid() && Kept(old(N()), N())
    {
      hide Inv, Open, PathOk, BadMode, Writes, Reads, Kept, Relative;
      InvLinked(N());
      OpenAtKeeps(N(), owner, dir, name, mode, mount);
      KeptInv(N(), OpenAt(N(), owner, dir, name, mode, mount).0);
      var d := Lookup(owner, dir);
      if d < 0 {
        return Fail(Stale);
      }
      var base := nodes[descs[d].node];
      if base.kind != Dir {
        return Fail(Invalid);
      }
      if BadMode(mode) {
        return Fail(Invalid);
      }
      if (Reads(mode) && !Reads(descs[d].mode)) || (Writes(mode) && !Writes(descs[d].mode)) {
        return Fail(Denied);
      }
      var at := RelativeTo(base.path, name);
      if at.Refused? {
        return Fail(Invalid);
      }
      r := OpenPath(owner, base.path, at.path, mode, mount);
    }

    static method RelativeTo(base: Path, name: Path) returns (r: Resolved)
      ensures r == Relative(base, name)
    {
      hide PathOk;
      if name == [] || name[0] == SLASH {
        return Refused;
      }
      var path := Join(base, name);
      if |name| > PATH_MAX || |path| > PATH_MAX {
        return Refused;
      }
      var ok := CheckPath(path);
      return if ok then Resolved(path) else Refused;
    }

    /** The description a token leads to. */
    method Lookup(owner: nat, h: nat) returns (d: int)
      ensures d == DescOf(N(), owner, h)
    {
      var i := h % 256;
      if i == 0 || i > |handles| {
        return -1;
      }
      var x := handles[i - 1];
      if x.owner != owner || x.generation != h / 256 || x.desc == 0 {
        return -1;
      }
      return x.desc - 1;
    }

    method RemoveNode(owner: nat, dir: nat, name: Path, kind: Kind) returns (r: Reply)
      requires Valid()
      modifies this`nodes
      ensures (N(), r) == Remove(old(N()), owner, dir, name, kind) && Valid() && Kept(old(N()), N())
    {
      hide Inv, Find, Kept, Relative, ParentsError, InUse, HasChild, Writes;
      InvLinked(N());
      RemoveKeeps(N(), owner, dir, name, kind);
      KeptInv(N(), Remove(N(), owner, dir, name, kind).0);
      var d := Lookup(owner, dir);
      if d < 0 {
        return Fail(Stale);
      }
      var base := nodes[descs[d].node];
      if base.kind != Dir {
        return Fail(Invalid);
      }
      if !Writes(descs[d].mode) {
        return Fail(Denied);
      }
      var at := RelativeTo(base.path, name);
      if at.Refused? {
        return Fail(Invalid);
      }
      if base.readonly || base.tag != 0 {
        return Fail(ReadOnly);
      }
      var e := CheckParents(at.path, Min(|base.path|, |at.path|));
      if e.Fail? {
        return e;
      }
      var target := FindNode(at.path);
      if target < 0 {
        return Fail(NotFound);
      }
      if nodes[target].readonly || nodes[target].tag != 0 {
        return Fail(ReadOnly);
      }
      if nodes[target].kind != kind {
        return Fail(Invalid);
      }
      var busy := IsOpen(target);
      if busy {
        return Fail(Exists);
      }
      if kind == Dir {
        busy := HasChildren(at.path);
        if busy {
          return Fail(Exists);
        }
      }
      nodes := nodes[target := BLANK];
      return Done(0);
    }

    method CheckParents(path: Path, from: nat) returns (r: Reply)
      requires from <= |path|
      ensures r == ParentsError(N(), path, from)
    {
      hide Find;
      for i := from to |path|
        invariant ParentsError(N(), path, from) == ParentsError(N(), path, i)
      {
        if path[i] == SLASH {
          var up := FindNode(path[..i]);
          if up < 0 || nodes[up].kind != Dir {
            return Fail(NotFound);
          }
          if nodes[up].readonly || nodes[up].tag != 0 {
            return Fail(ReadOnly);
          }
        }
      }
      return Done(0);
    }

    method IsOpen(node: nat) returns (r: bool)
      ensures r == InUse(descs, node)
    {
      for i := 0 to |descs|
        invariant forall d :: 0 <= d < i ==> !(descs[d].refs > 0 && descs[d].node == node)
      {
        if descs[i].refs > 0 && descs[i].node == node {
          return true;
        }
      }
      return false;
    }

    method HasChildren(path: Path) returns (r: bool)
      ensures r == HasChild(nodes, path)
    {
      for i := 0 to |nodes|
        invariant forall k :: 0 <= k < i ==> !(nodes[k].kind != NoNode && Beneath(path, nodes[k].path))
      {
        if nodes[i].kind != NoNode && Beneath(path, nodes[i].path) {
          return true;
        }
      }
      return false;
    }

    method Duplicate(owner: nat, h: nat) returns (r: Reply)
      requires Valid()
      modifies this`handles, this`descs
      ensures (N(), r) == Dup(old(N()), owner, h) && Valid() && Kept(old(N()), N())
    {
      hide Inv, NewHandle, Kept;
      InvLinked(N());
      DupHandleKeeps(N(), owner, h);
      KeptInv(N(), Dup(N(), owner, h).0);
      var d := Lookup(owner, h);
      if d < 0 {
        return Fail(Stale);
      }
      r := TakeHandle(owner, d);
    }

    method CloseHandle(owner: nat, h: nat) returns (r: Reply)
      requires Valid()
      modifies this
      ensures (N(), r) == Close(old(N()), owner, h) && Valid() && Kept(old(N()), N())
    {
      hide RefsExact, AllSane, OnePath, GoodPaths, Kept, Ledger;
      CloseHandleKeeps(N(), owner, h);
      KeptInv(N(), Close(N(), owner, h).0);
      var d := Lookup(owner, h);
      if d < 0 {
        return Fail(Stale);
      }
      ghost var ns := N();
      var slot := h % 256 - 1;
      PipeHasWriter(ns, d);
      descs := descs[d := descs[d].(refs := descs[d].refs - 1)];
      if descs[d].refs == 0 {
        var x := nodes[descs[d].node];
        if x.kind == Pipe && Writes(descs[d].mode) {
          nodes := nodes[descs[d].node := x.(writers := x.writers - 1)];
        }
        if x.tag != 0 {
          calls := calls + [Closed(x.tag)];
        }
      }
      handles := handles[slot := handles[slot].(desc := 0)];
      return Done(0);
    }

    method ReadBytes(owner: nat, h: nat, n: nat, disk: Answer) returns (r: Reply)
      requires Valid()
      modifies this`nodes, this`descs
      ensures (N(), r) == Read(old(N()), owner, h, n, disk) && Valid() && Kept(old(N()), N())
    {
      hide Inv, Kept, Queue, Contents, Reads;
      InvLinked(N());
      ReadKeeps(N(), owner, h, n, disk);
      KeptInv(N(), Read(N(), owner, h, n, disk).0);
      var d := Lookup(owner, h);
      if d < 0 {
        return Fail(Stale);
      }
      if !Reads(descs[d].mode) {
        return Fail(Denied);
      }
      var i, off := descs[d].node, descs[d].offset;
      var x := nodes[i];
      if x.kind == Dir {
        return Fail(Invalid);
      }
      if n == 0 {
        return Data([]);
      }
      if x.kind == Console {
        return Fail(WouldBlock);
      }
      if x.kind == Disk {
        if disk.Missing? {
          return Fail(Gone);
        }
        if disk.Refuses? {
          return Fail(Backend(disk.code));
        }
        if |disk.bytes| > n || |disk.bytes| > U32_MAX - off {
          return Fail(BadFormat);
        }
        descs := descs[d := descs[d].(offset := off + |disk.bytes|)];
        return Data(disk.bytes);
      }
      if x.kind == Pipe {
        if x.size == 0 {
          return if x.writers > 0 then Fail(WouldBlock) else Data([]);
        }
        var k := Min(n, x.size);
        var out := TakeRing(x, k);
        nodes := nodes[i := x.(head := (x.head + k) % CAP, size := x.size - k)];
        return Data(out);
      }
      if off >= x.size {
        return Data([]);
      }
      var k := Min(n, x.size - off);
      descs := descs[d := descs[d].(offset := off + k)];
      return Data(SliceOf(x, off, k));
    }

    static function SliceOf(x: Node, off: nat, k: nat): (s: seq<byte>)
      requires x.size <= |x.data| && off + k <= x.size
      ensures s == Contents(x)[off..off + k]
    {
      assert x.data[off..off + k] == x.data[..x.size][off..off + k];
      x.data[off..off + k]
    }

    /** The oldest `k` bytes of a ring. */
    static method TakeRing(x: Node, k: nat) returns (out: seq<byte>)
      requires |x.data| == CAP && k <= x.size
      ensures out == Queue(x)[..k]
    {
      out := [];
      for i := 0 to k
        invariant out == Queue(x)[..i]
      {
        out := out + [x.data[(x.head + i) % CAP]];
      }
    }

    method WriteBytes(owner: nat, h: nat, b: seq<byte>, disk: Answer) returns (r: Reply)
      requires Valid()
      modifies this
      ensures (N(), r) == Write(old(N()), owner, h, b, disk) && Valid() && Kept(old(N()), N())
    {
      hide Inv, Kept, RingPut, FilePut, Writes;
      InvLinked(N());
      WriteKeeps(N(), owner, h, b, disk);
      KeptInv(N(), Write(N(), owner, h, b, disk).0);
      var d := Lookup(owner, h);
      if d < 0 {
        return Fail(Stale);
      }
      if !Writes(descs[d].mode) {
        return Fail(Denied);
      }
      var i, off := descs[d].node, descs[d].offset;
      var x := nodes[i];
      if x.readonly {
        return Fail(ReadOnly);
      }
      if x.kind == Dir {
        return Fail(Invalid);
      }
      if b == [] {
        return Done(0);
      }
      if x.kind == Console {
        if disk.Missing? {
          return Fail(Gone);
        }
        calls := calls + [Printed(b)];
        return if disk.Refuses? then Fail(Backend(disk.code)) else Done(|disk.bytes|);
      }
      if x.kind == Disk {
        r := WriteDisk(d, b, disk);
        return;
      }
      if off > CAP {
        return Fail(Invalid);
      }
      if x.kind == Pipe {
        var k := Min(|b|, CAP - x.size);
        if k == 0 {
          return Fail(WouldBlock);
        }
        var data := PutRing(x.data, x.head + x.size, b[..k]);
        nodes := nodes[i := x.(data := data, size := x.size + k)];
        return Done(k);
      }
      var k := Min(|b|, CAP - off);
      if k == 0 {
        return Fail(NoSpace);
      }
      nodes := nodes[i := x.(data := FilePut(x.data, x.size, off, b[..k]), size := if off + k > x.size then off + k else x.size)];
      descs := descs[d := descs[d].(offset := off + k)];
      return Done(k);
    }

    method WriteDisk(d: nat, b: seq<byte>, disk: Answer) returns (r: Reply)
      requires d < |descs| && descs[d].node < |nodes|
      modifies this
      ensures var ns, off := old(N()), old(descs)[d].offset;
              var x := ns.nodes[ns.descs[d].node];
              (N(), r) ==
                if disk.Missing? then (ns, Fail(ReadOnly))
                else
                  var ns1 := Logged(ns, Wrote(x.external, off, b));
                  match disk
                  case Refuses(c) => (ns1, Fail(Backend(c)))
                  case Moves(m) =>
                    if |m| > |b| || off + |m| > U32_MAX then (ns1, Fail(BadFormat))
                    else (SetNode(SetOffset(ns1, d, off + |m|), ns.descs[d].node, x.(size := if off + |m| > x.size then off + |m| else x.size)), Done(|m|))
    {
      if disk.Missing? {
        return Fail(ReadOnly);
      }
      var i, off := descs[d].node, descs[d].offset;
      calls := calls + [Wrote(nodes[i].external, off, b)];
      if disk.Refuses? {
        return Fail(Backend(disk.code));
      }
      var k := |disk.bytes|;
      if k > |b| || off + k > U32_MAX {
        return Fail(BadFormat);
      }
      descs := descs[d := descs[d].(offset := off + k)];
      nodes := nodes[i := nodes[i].(size := if off + k > nodes[i].size then off + k else nodes[i].size)];
      return Done(k);
    }

    static method PutRing(data: seq<byte>, at: nat, b: seq<byte>) returns (r: seq<byte>)
      requires |data| == CAP
      ensures r == RingPut(data, at, b)
    {
      r := data;
      for i := 0 to |b|
        invariant r == RingPut(data, at, b[..i])
      {
        assert b[..i + 1][..i] == b[..i];
        r := r[(at + i) % CAP := b[i]];
      }
      assert b[..|b|] == b;
    }

    method TruncateFile(owner: nat, h: nat, n: nat, disk: Answer) returns (r: Reply)
      requires Valid()
      modifies this`nodes, this`calls
      ensures (N(), r) == Truncate(old(N()), owner, h, n, disk) && Valid() && Kept(old(N()), N())
    {
      hide Inv, Kept, Writes;
      InvLinked(N());
      TruncateKeeps(N(), owner, h, n, disk);
      KeptInv(N(), Truncate(N(), owner, h, n, disk).0);
      var d := Lookup(owner, h);
      if d < 0 {
        return Fail(Stale);
      }
      if !Writes(descs[d].mode) {
        return Fail(Denied);
      }
      var i := descs[d].node;
      var x := nodes[i];
      if x.readonly {
        return Fail(ReadOnly);
      }
      if x.kind != File && x.kind != Disk {
        return Fail(Invalid);
      }
      if n > U32_MAX {
        return Fail(NoSpace);
      }
      if x.kind == Disk {
        if disk.Missing? {
          return Fail(ReadOnly);
        }
        calls := calls + [Resized(x.external, n)];
        if disk.Refuses? {
          return Fail(Backend(disk.code));
        }
        if disk.bytes != [] {
          return Fail(BadFormat);
        }
        nodes := nodes[i := x.(size := n)];
        return Done(0);
      }
      if n > CAP {
        return Fail(NoSpace);
      }
      var start := Min(n, x.size);
      nodes := nodes[i := x.(data := x.data[..start] + Zeros(CAP - start), size := n)];
      return Done(0);
    }

    method SeekTo(owner: nat, h: nat, off: nat) returns (r: Reply)
      requires Valid()
      modifies this`descs
      ensures (N(), r) == Seek(old(N()), owner, h, off) && Valid() && Kept(old(N()), N())
    {
      hide Inv, Kept;
      InvLinked(N());
      SeekKeeps(N(), owner, h, off);
      KeptInv(N(), Seek(N(), owner, h, off).0);
      var d := Lookup(owner, h);
      if d < 0 {
        return Fail(Stale);
      }
      var x := nodes[descs[d].node];
      if x.kind == Pipe || x.kind == Console {
        return Fail(NotSeekable);
      }
      if (x.kind != File && x.kind != Disk) || off > (if x.kind == Disk then x.size else CAP) {
        return Fail(Invalid);
      }
      descs := descs[d := descs[d].(offset := off)];
      return Done(off);
    }

    /** Closes every handle of a task that is gone. */
    method ReapOwner(owner: nat)
      requires Valid()
      modifies this
      ensures N() == ReapFrom(old(N()), owner, 0) && Valid() && Kept(old(N()), N())
    {
      hide Inv, Kept, Close, CloseSlot, SlotOf;
      ghost var ns := N();
      ReapKeeps(ns, owner, 0);
      KeptInv(ns, ReapFrom(ns, owner, 0));
      for i := 0 to |handles|
        invariant Valid() && |handles| == |ns.handles|
        invariant ReapFrom(N(), owner, i) == ReapFrom(ns, owner, 0)
      {
        if handles[i].desc != 0 && handles[i].owner == owner {
          InvLinked(N());
          OwnToken(N(), i);
          CloseInv(N(), i);
          ghost var before := N();
          var r := CloseHandle(owner, Token(handles[i], i));
          CloseAtToken(before, owner, i);
        }
      }
    }

    method UnmountTag(tag: nat) returns (r: Reply)
      requires Valid()
      modifies this`nodes
      ensures (N(), r) == Unmount(old(N()), tag) && Valid() && Kept(old(N()), N())
    {
      hide Inv, Kept;
      InvLinked(N());
      UnmountKeeps(N(), tag);
      KeptInv(N(), Unmount(N(), tag).0);
      if tag == 0 {
        return Fail(Invalid);
      }
      ghost var ns := N();
      for d := 0 to |descs|
        invariant N() == ns
        invariant forall k :: 0 <= k < d ==> !(descs[k].refs > 0 && nodes[descs[k].node].tag == tag)
      {
        if descs[d].refs > 0 && nodes[descs[d].node].tag == tag {
          return Fail(Exists);
        }
      }
      for i := 0 to |nodes|
        invariant |nodes| == |ns.nodes|
        invariant forall k :: 0 <= k < i ==> nodes[k] == Unmounted(ns.nodes[k], tag)
        invariant forall k :: i <= k < |nodes| ==> nodes[k] == ns.nodes[k]
      {
        if nodes[i].tag == tag {
          nodes := nodes[i := if nodes[i].path == DISK_ROOT then nodes[i].(tag := 0, readonly := false) else BLANK];
        }
      }
      assert nodes == Unmount(ns, tag).0.nodes;
      return Done(0);
    }

    /** Serves one message; closing the delegated root forgets it. */
    method Dispatch(owner: nat, root: nat, m: Msg, a: Answer) returns (r: Reply, left: nat)
      requires Valid() && |m.data| == MSG_BYTES
      modifies this
      ensures Valid() && N() == Served(old(N()), owner, m, a)
      ensures Decode(m, owner, a).Act? ==> r == Next(old(N()), Decode(m, owner, a).event).1
      ensures Decode(m, owner, a).Refuse? ==> r == Fail(Decode(m, owner, a).error)
      ensures left == if m.op == OP_CLOSE && r.Done? && m.handle == root then 0 else root
    {
      hide Inv, Kept, Named, Create, Open, OpenAt, Remove, Dup, Close, Read, Write, Truncate, Seek, ReapFrom, Unmount, Attach, Delegate;
      InvLinked(N());
      left := root;
      var request := Decode(m, owner, a);
      match request
      case Refuse(e) => r := Fail(e);
      case Query => r := Done(0);
      case Act(e) =>
        match e {
          case Opens(o, base, p, mode, _) => r := OpenPath(o, base, p, mode, a);
          case OpensAt(o, h, name, mode, _) => r := OpenRelative(o, h, name, mode, a);
          case Removes(o, h, name, kind) => r := RemoveNode(o, h, name, kind);
          case Dups(o, h) => r := Duplicate(o, h);
          case Closes(o, h) =>
            r := CloseHandle(o, h);
            if r.Done? && h == root {
              left := 0;
            }
          case ReadsAt(o, h, n, _) => r := ReadBytes(o, h, n, a);
          case Puts(o, h, b, _) => r := WriteBytes(o, h, b, a);
          case Truncates(o, h, n, _) => r := TruncateFile(o, h, n, a);
          case Seeks(o, h, n) => r := SeekTo(o, h, n);
        }
    }
  }

  lemma KeptInv(ns: Ns, nt: Ns)
    requires Kept(ns, nt)
    ensures Inv(nt)
  {
  }

  lemma PathNonempty(p: Path)
    requires PathOk(p)
    ensures p != []
  {
  }

  /** A handle changes neither nodes nor calls. */
  lemma NewHandleShape(ns: Ns, owner: nat, d: nat)
    requires d < |ns.descs|
    ensures NewHandle(ns, owner, d).0.nodes == ns.nodes && NewHandle(ns, owner, d).0.calls == ns.calls
  {
    hide FreeHandle, Token;
  }

  /** An open writer is counted, so closing it can count down. */
  lemma PipeHasWriter(ns: Ns, d: nat)
    requires Inv(ns) && d < |ns.descs| && ns.descs[d].refs > 0
    ensures var x := ns.nodes[ns.descs[d].node]; x.kind == Pipe && Writes(ns.descs[d].mode) ==> x.writers > 0
  {
    hide Ones, RefsExact, AllSane, OnePath, GoodPaths;
    OnesSomeWriter(ns, d);
  }

  lemma OnesSomeWriter(ns: Ns, d: nat)
    requires d < |ns.descs| && ns.descs[d].refs > 0
    ensures Writes(ns.descs[d].mode) ==> Ones(Writing(ns.descs, ns.descs[d].node)) > 0
  {
    hide Ones;
    if Writes(ns.descs[d].mode) {
      OnesSome(Writing(ns.descs, ns.descs[d].node), d);
    }
  }

  /** A slot's own token leads back to it. */
  lemma OwnToken(ns: Ns, i: nat)
    requires Linked(ns) && i < |ns.handles| && ns.handles[i].desc != 0
    ensures SlotOf(ns, ns.handles[i].owner, Token(ns.handles[i], i)) == i
  {
    var g := ns.handles[i].generation;
    assert (g * 256 + (i + 1)) % 256 == i + 1 && (g * 256 + (i + 1)) / 256 == g;
  }

  lemma CloseAtToken(ns: Ns, owner: nat, i: nat)
    requires Linked(ns) && i < |ns.handles| && ns.handles[i].desc != 0 && ns.handles[i].owner == owner
    ensures Close(ns, owner, Token(ns.handles[i], i)).0 == CloseSlot(ns, i)
  {
    hide SlotOf, CloseSlot;
    OwnToken(ns, i);
  }
}
