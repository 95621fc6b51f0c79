/** What each namespace operation answers, and the whole change it makes when it succeeds. */
module NsLaws {
  import opened Bytes
  import opened Paths
  import opened Namespace
  import opened NsInvariant
  import opened NsRuns

  // ---------------------------------------------------------------- tokens

  /** A token names slot `i` exactly when it spells that slot's number and current generation, and the slot is open for the owner. */
  lemma TokenExact(ns: Ns, owner: nat, h: nat, i: nat)
    requires |ns.handles| <= 255 && i < |ns.handles|
    ensures SlotOf(ns, owner, h) == i <==>
              && h == ns.handles[i].generation * 256 + i + 1
              && ns.handles[i].owner == owner && ns.handles[i].desc != 0
  {
  }

  /** The token a slot will carry next names nothing yet. */
  lemma FreshToken(ns: Ns, owner: nat, j: nat)
    requires |ns.handles| <= 255 && j < |ns.handles|
    ensures SlotOf(ns, owner, (ns.handles[j].generation + 1) * 256 + j + 1) == -1
  {
    var h := (ns.handles[j].generation + 1) * 256 + j + 1;
    assert h % 256 == j + 1 && h / 256 == ns.handles[j].generation + 1;
  }

  /** Every token but those for slot `j` names what it named. */
  lemma OtherTokens(ns: Ns, nt: Ns, j: nat, owner: nat, h: nat)
    requires |ns.handles| == |nt.handles| <= 255 && j < |ns.handles|
    requires forall i :: 0 <= i < |ns.handles| && i != j ==> nt.handles[i] == ns.handles[i]
    ensures SlotOf(nt, owner, h) != j && SlotOf(ns, owner, h) != j ==> SlotOf(nt, owner, h) == SlotOf(ns, owner, h)
  {
  }

  /** `nt` differs from `ns` in its tokens only by the new one `h`, which names description `d` for `owner`. */
  ghost predicate OneMoreToken(ns: Ns, nt: Ns, owner: nat, h: nat, d: nat) {
    && DescOf(ns, owner, h) == -1 && DescOf(nt, owner, h) == d
    && forall o: nat, g: nat :: (o, g) != (owner, h) ==> DescOf(nt, o, g) == DescOf(ns, o, g)
  }

  lemma TokenAdded(ns: Ns, nt: Ns, owner: nat, j: nat, d: nat)
    requires |ns.handles| <= 255 && j < |ns.handles| && ns.handles[j].desc == 0
    requires nt.handles == ns.handles[j := Handle(owner, ns.handles[j].generation + 1, d + 1)]
    ensures OneMoreToken(ns, nt, owner, (ns.handles[j].generation + 1) * 256 + j + 1, d)
  {
    hide SlotOf;
    var h := (ns.handles[j].generation + 1) * 256 + j + 1;
    TokenExact(nt, owner, h, j);
    forall o: nat, g: nat | (o, g) != (owner, h)
      ensures DescOf(nt, o, g) == DescOf(ns, o, g)
    {
      TokenExact(nt, o, g, j);
      TokenExact(ns, o, g, j);
      OtherTokens(ns, nt, j, o, g);
    }
    FreshToken(ns, owner, j);
  }

  // ------------------------------------------------------------------ open

  ghost predicate NodeAt(ns: Ns, i: nat, path: Path) {
    i < |ns.nodes| && ns.nodes[i].kind != NoNode && ns.nodes[i].path == path
  }

  /** Room for one more description and one more handle. */
  ghost predicate HasRoom(ns: Ns) {
    && (exists d :: 0 <= d < |ns.descs| && ns.descs[d].refs == 0)
    && (exists j :: 0 <= j < |ns.handles| && Reusable(ns.handles[j]))
  }

  /** The node may be opened in this mode below this root. */
  ghost predicate MayOpen(ns: Ns, owner: nat, root: Path, path: Path, mode: nat, i: nat) {
    && owner != 0 && PathOk(root) && PathOk(path) && 1 <= mode % 4 && mode < 16
    && (root == [47] || root == path || (|root| < |path| && path[..|root|] == root && path[|root|] == 47))
    && (exists b :: 0 <= b < |ns.nodes| && NodeAt(ns, b, root) && ns.nodes[b].kind == Dir)
    && NodeAt(ns, i, path)
    && (mode / 8 % 2 == 1 ==> ns.nodes[i].kind == Dir) && !(ns.nodes[i].readonly && mode / 2 % 2 == 1)
  }

  lemma OneNode(ns: Ns, i: nat, path: Path)
    requires Inv(ns) && NodeAt(ns, i, path)
    ensures Find(ns.nodes, path) == i
  {
    hide Linked, AllSane, GoodPaths, Owned, RefsExact, WritersExact, PipesUnmoved;
  }

  lemma OpenCheckExact(ns: Ns, owner: nat, root: Path, path: Path, mode: nat, i: nat)
    requires Inv(ns)
    ensures OpenCheck(ns, owner, root, path, mode) == Done(i) <==> MayOpen(ns, owner, root, path, mode, i)
  {
    hide Inv, PathOk, Find;
    var base := Find(ns.nodes, root);
    if base >= 0 {
      assert NodeAt(ns, base, root);
    }
    if exists b :: 0 <= b < |ns.nodes| && NodeAt(ns, b, root) && ns.nodes[b].kind == Dir {
      var b :| 0 <= b < |ns.nodes| && NodeAt(ns, b, root) && ns.nodes[b].kind == Dir;
      OneNode(ns, b, root);
    }
    if NodeAt(ns, i, path) {
      OneNode(ns, i, path);
    }
  }

  /** The change an open makes: one new description at the start of the node, under one new token. */
  ghost predicate Opened(ns: Ns, nt: Ns, owner: nat, i: nat, mode: nat, h: nat) {
    exists d :: 0 <= d < |ns.descs| && ns.descs[d].refs == 0 && nt.descs == ns.descs[d := Desc(i, 0, mode, 1)]
                && OneMoreToken(ns, nt, owner, h, d)
  }

  /** An open succeeds exactly when the node may be opened, there is room and its mount agrees. */
  lemma OpenExact(ns: Ns, owner: nat, root: Path, path: Path, mode: nat, mount: Answer)
    requires Inv(ns)
    ensures var r := Open(ns, owner, root, path, mode, mount).1;
            r.Done? <==>
              && HasRoom(ns)
              && exists i: nat :: MayOpen(ns, owner, root, path, mode, i) && !(ns.nodes[i].tag != 0 && mount.Refuses?)
  {
    hide Inv, MayOpen, OpenCheck, FreeDesc, FreeHandle, Open;
    OpenIs(ns, owner, root, path, mode, mount);
    var c := OpenCheck(ns, owner, root, path, mode);
    if c.Done? {
      OpenCheckExact(ns, owner, root, path, mode, c.value);
    }
    forall i: nat | MayOpen(ns, owner, root, path, mode, i)
      ensures c == Done(i)
    {
      OpenCheckExact(ns, owner, root, path, mode, i);
    }
    RoomExact(ns);
  }

  lemma RoomExact(ns: Ns)
    ensures HasRoom(ns) <==> FreeDesc(ns.descs, 0) >= 0 && FreeHandle(ns.handles, 0) >= 0
  {
    hide FreeDesc, FreeHandle;
  }

  lemma OpenChanges(ns: Ns, owner: nat, root: Path, path: Path, mode: nat, mount: Answer)
    requires Inv(ns) && Open(ns, owner, root, path, mode, mount).1.Done?
    ensures var (nt, r) := Open(ns, owner, root, path, mode, mount);
            exists i: nat :: NodeAt(ns, i, path) && Opened(ns, nt, owner, i, mode, r.value)
  {
    hide Inv, OpenCheck, FreeDesc, FreeHandle, Open, OneMoreToken;
    InvLinked(ns);
    OpenIs(ns, owner, root, path, mode, mount);
    var i, d, j := OpenCheck(ns, owner, root, path, mode).value, FreeDesc(ns.descs, 0), FreeHandle(ns.handles, 0);
    var nt := Open(ns, owner, root, path, mode, mount).0;
    TokenAdded(ns, nt, owner, j, d);
    assert NodeAt(ns, i, path) && Opened(ns, nt, owner, i, mode, (ns.handles[j].generation + 1) * 256 + j + 1);
  }

  /** A relative open is the open of the name below the directory, with no more access than the directory handle. */
  lemma OpenAtIs(ns: Ns, owner: nat, dir: nat, name: Path, mode: nat, mount: Answer)
    requires Inv(ns) && Linked(ns)
    ensures var d := DescOf(ns, owner, dir);
            var (nt, r) := OpenAt(ns, owner, dir, name, mode, mount);
            if d < 0 then nt == ns && r == Fail(Stale)
            else
              var x := ns.nodes[ns.descs[d].node];
              var path := if x.path == [47] then x.path + name else x.path + [47] + name;
              if x.kind != Dir || mode % 4 == 0 || mode >= 16 then nt == ns && r == Fail(Invalid)
              else if (mode % 2 == 1 && ns.descs[d].mode % 2 == 0) || (mode / 2 % 2 == 1 && ns.descs[d].mode / 2 % 2 == 0) then
                nt == ns && r == Fail(Denied)
              else if name == [] || name[0] == 47 || !PathOk(path) then nt == ns && r == Fail(Invalid)
              else (nt, r) == Open(ns, owner, x.path, path, mode, mount)
  {
    hide Inv, Open, SlotOf, Relative, PathOk;
    var d := DescOf(ns, owner, dir);
    if d >= 0 {
      BasePath(ns, ns.descs[d].node);
      RelativeIs(ns.nodes[ns.descs[d].node].path, name);
    }
  }

  /** A name resolves to itself below the directory, if that is a proper path. */
  lemma RelativeIs(base: Path, name: Path)
    requires |base| == 1 <==> base == [47]
    ensures var path := if base == [47] then base + name else base + [47] + name;
            Relative(base, name) == if name == [] || name[0] == 47 || !PathOk(path) then Refused else Resolved(path)
  {
    hide PathOk;
    var path := if base == [47] then base + name else base + [47] + name;
    assert Join(base, name) == path;
    PathLimit(path);
  }

  lemma BasePath(ns: Ns, i: nat)
    requires Inv(ns) && i < |ns.nodes| && ns.nodes[i].kind != NoNode
    ensures PathOk(ns.nodes[i].path) && (|ns.nodes[i].path| == 1 <==> ns.nodes[i].path == [47])
  {
    hide Linked, AllSane, OnePath, Owned, RefsExact, WritersExact, PipesUnmoved, Utf8.Valid;
  }

  // ------------------------------------------------------- dup and close

  /** A duplicate names the same description, under one new token. */
  lemma DupExact(ns: Ns, owner: nat, h: nat)
    requires Inv(ns) && Linked(ns)
    ensures var (nt, r) := Dup(ns, owner, h);
            var d := DescOf(ns, owner, h);
            if d < 0 then nt == ns && r == Fail(Stale)
            else if !exists j :: 0 <= j < |ns.handles| && Reusable(ns.handles[j]) then nt == ns && r == Fail(NoSpace)
            else r.Done? && OneMoreToken(ns, nt, owner, r.value, d) && nt.nodes == ns.nodes
                 && nt.descs == ns.descs[d := ns.descs[d].(refs := ns.descs[d].refs + 1)]
  {
    hide Inv, SlotOf, OneMoreToken, FreeHandle;
    var d, j := DescOf(ns, owner, h), FreeHandle(ns.handles, 0);
    if d >= 0 && j >= 0 {
      TokenAdded(ns, Dup(ns, owner, h).0, owner, j, d);
    }
  }

  /** A close retires its token and no other, and takes one reference from the description. */
  lemma CloseExact(ns: Ns, owner: nat, h: nat)
    requires Inv(ns) && Linked(ns)
    ensures var (nt, r) := Close(ns, owner, h);
            var d := DescOf(ns, owner, h);
            if d < 0 then nt == ns && r == Fail(Stale)
            else
              && r == Done(0) && DescOf(nt, owner, h) == -1
              && (forall o: nat, g: nat :: (o, g) != (owner, h) ==> DescOf(nt, o, g) == DescOf(ns, o, g))
              && nt.descs == ns.descs[d := ns.descs[d].(refs := ns.descs[d].refs - 1)]
  {
    hide Inv, SlotOf;
    var s := SlotOf(ns, owner, h);
    if s >= 0 {
      var nt := Close(ns, owner, h).0;
      assert nt.handles == ns.handles[s := ns.handles[s].(desc := 0)];
      TokenRetired(ns, nt, owner, h, s);
    }
  }

  lemma ClosedToken(ns: Ns, nt: Ns, owner: nat, h: nat, s: nat)
    requires s < |ns.handles| == |nt.handles| && SlotOf(ns, owner, h) == s && nt.handles[s].desc == 0
    ensures SlotOf(nt, owner, h) == -1
  {
  }

  lemma TokenRetired(ns: Ns, nt: Ns, owner: nat, h: nat, s: nat)
    requires |ns.handles| <= 255 && s < |ns.handles| && SlotOf(ns, owner, h) == s
    requires nt.handles == ns.handles[s := ns.handles[s].(desc := 0)]
    ensures DescOf(nt, owner, h) == -1
    ensures forall o: nat, g: nat :: (o, g) != (owner, h) ==> DescOf(nt, o, g) == DescOf(ns, o, g)
  {
    hide SlotOf;
    TokenExact(ns, owner, h, s);
    assert SlotOf(nt, owner, h) == -1 by { ClosedToken(ns, nt, owner, h, s); }
    forall o: nat, g: nat | (o, g) != (owner, h)
      ensures DescOf(nt, o, g) == DescOf(ns, o, g)
    {
      TokenExact(ns, o, g, s);
      TokenExact(nt, o, g, s);
      OtherTokens(ns, nt, s, o, g);
    }
  }

  // ---------------------------------------------------- create and remove

  /** The directory a path is in: everything before its last slash, or the root. */
  lemma ParentIs(p: Path)
    requires p != [] && p[0] == 47
    ensures exists c :: 0 <= c < |p| && p[c] == 47 && (forall k :: c < k < |p| ==> p[k] != 47)
                        && Parent(p) == if c == 0 then [47] else p[..c]
  {
    var c := Cut(p, |p|) - 1;
    assert p[..1] == [47];
    assert p[c] == 47;
  }

  ghost predicate MayCreate(ns: Ns, p: Path, kind: Kind) {
    && PathOk(p) && kind != NoNode && (forall i: nat :: !NodeAt(ns, i, p))
    && (p != [47] ==> exists u :: 0 <= u < |ns.nodes| && NodeAt(ns, u, Parent(p)) && ns.nodes[u].kind == Dir && !ns.nodes[u].readonly)
    && exists i :: 0 <= i < |ns.nodes| && ns.nodes[i].kind == NoNode
  }

  /** A create succeeds exactly when the path is new below a writable directory, and makes one empty node. */
  lemma CreateExact(ns: Ns, p: Path, kind: Kind, ro: bool)
    requires Inv(ns)
    ensures var (nt, r) := Create(ns, p, kind, ro);
            && (r == Done(0) <==> MayCreate(ns, p, kind)) && (r != Done(0) ==> nt == ns)
            && (r == Done(0) ==>
                  && nt.descs == ns.descs && nt.handles == ns.handles
                  && exists i :: 0 <= i < |ns.nodes| && ns.nodes[i].kind == NoNode
                       && nt.nodes == ns.nodes[i := Node(p, kind, ro, 0, 0, 0, 0, 0, Zeros(1024))])
  {
    hide Inv, PathOk, Parent, Find, FreeNode;
    CreateCheck(ns, p, kind);
  }

  lemma CreateCheck(ns: Ns, p: Path, kind: Kind)
    requires Inv(ns)
    ensures CreateError(ns, p, kind) == Done(0) <==> MayCreate(ns, p, kind)
  {
    hide Inv, PathOk, Parent, Find, FreeNode;
    if PathOk(p) {
      assert p != [] by { PathNotEmpty(p); }
      var up := Find(ns.nodes, Parent(p));
      if up >= 0 {
        assert NodeAt(ns, up, Parent(p));
      }
      if exists u :: 0 <= u < |ns.nodes| && NodeAt(ns, u, Parent(p)) && ns.nodes[u].kind == Dir && !ns.nodes[u].readonly {
        var u :| 0 <= u < |ns.nodes| && NodeAt(ns, u, Parent(p)) && ns.nodes[u].kind == Dir && !ns.nodes[u].readonly;
        OneNode(ns, u, Parent(p));
      }
      if Find(ns.nodes, p) >= 0 {
        assert NodeAt(ns, Find(ns.nodes, p), p);
      }
    }
  }

  lemma PathNotEmpty(p: Path)
    requires PathOk(p)
    ensures p != [] && p[0] == 47
  {
    hide Utf8.Valid;
  }

  ghost predicate OpenDirectory(ns: Ns, path: Path) {
    exists u :: 0 <= u < |ns.nodes| && NodeAt(ns, u, path) && ns.nodes[u].kind == Dir && !ns.nodes[u].readonly && ns.nodes[u].tag == 0
  }

  /** Every directory on the way from position `i` is there, writable and unmounted. */
  ghost predicate AllOpen(ns: Ns, path: Path, i: nat) {
    forall k :: i <= k < |path| && path[k] == 47 ==> OpenDirectory(ns, path[..k])
  }

  lemma {:induction false} ParentsExact(ns: Ns, path: Path, i: nat)
    requires Inv(ns) && i <= |path|
    ensures ParentsError(ns, path, i) == Done(0) <==> AllOpen(ns, path, i)
    decreases |path| - i
  {
    hide Inv, Find, OpenDirectory;
    if i < |path| {
      ParentsExact(ns, path, i + 1);
      if path[i] == 47 {
        DirectoryExact(ns, path[..i]);
      }
    }
  }

  lemma DirectoryExact(ns: Ns, path: Path)
    requires Inv(ns)
    ensures var up := Find(ns.nodes, path);
            OpenDirectory(ns, path) <==> up >= 0 && ns.nodes[up].kind == Dir && !ns.nodes[up].readonly && ns.nodes[up].tag == 0
  {
    hide Inv, Find;
    var up := Find(ns.nodes, path);
    if up >= 0 {
      assert NodeAt(ns, up, path);
    }
    if OpenDirectory(ns, path) {
      var u :| 0 <= u < |ns.nodes| && NodeAt(ns, u, path) && ns.nodes[u].kind == Dir && !ns.nodes[u].readonly && ns.nodes[u].tag == 0;
      OneNode(ns, u, path);
    }
  }

  /** Node `i` may be removed as `name` below the directory of handle `dir`. */
  ghost predicate MayRemove(ns: Ns, owner: nat, dir: nat, name: Path, kind: Kind, i: nat)
    requires Linked(ns)
  {
    var d := DescOf(ns, owner, dir);
    && d >= 0 && ns.descs[d].mode / 2 % 2 == 1
    && var x := ns.nodes[ns.descs[d].node];
       var path := if x.path == [47] then x.path + name else x.path + [47] + name;
       && x.kind == Dir && !x.readonly && x.tag == 0 && name != [] && name[0] != 47 && PathOk(path)
       && AllOpen(ns, path, |x.path|)
       && NodeAt(ns, i, path) && ns.nodes[i].kind == kind && !ns.nodes[i].readonly && ns.nodes[i].tag == 0
       && NobodyHas(ns, i) && (kind == Dir ==> Childless(ns, path))
  }

  ghost predicate NobodyHas(ns: Ns, i: nat) {
    forall k :: 0 <= k < |ns.descs| && ns.descs[k].refs > 0 ==> ns.descs[k].node != i
  }

  ghost predicate Childless(ns: Ns, path: Path) {
    forall k :: 0 <= k < |ns.nodes| && ns.nodes[k].kind != NoNode ==>
      !(|path| < |ns.nodes[k].path| && ns.nodes[k].path[..|path|] == path && ns.nodes[k].path[|path|] == 47)
  }

  lemma UseExact(ns: Ns, i: nat)
    ensures InUse(ns.descs, i) <==> !NobodyHas(ns, i)
  {
  }

  lemma ChildExact(ns: Ns, path: Path)
    ensures HasChild(ns.nodes, path) <==> !Childless(ns, path)
  {
    forall k | 0 <= k < |ns.nodes|
      ensures Beneath(path, ns.nodes[k].path) <==>
                (|path| < |ns.nodes[k].path| && ns.nodes[k].path[..|path|] == path && ns.nodes[k].path[|path|] == 47)
    {
    }
  }

  lemma RemoveCheckExact(ns: Ns, owner: nat, dir: nat, name: Path, kind: Kind, i: nat)
    requires Inv(ns) && Linked(ns)
    ensures RemoveCheck(ns, owner, dir, name, kind) == Done(i) <==> MayRemove(ns, owner, dir, name, kind, i)
  {
    hide Inv, SlotOf, PathOk, Find, ParentsError, OpenDirectory, Relative, InUse, HasChild, NobodyHas, Childless, AllOpen;
    var d := DescOf(ns, owner, dir);
    if d >= 0 {
      var x := ns.nodes[ns.descs[d].node];
      BasePath(ns, ns.descs[d].node);
      var path := if x.path == [47] then x.path + name else x.path + [47] + name;
      RelativeIs(x.path, name);
      assert Min(|x.path|, |path|) == |x.path|;
      ParentsExact(ns, path, |x.path|);
      ChildExact(ns, path);
      UseExact(ns, i);
      if NodeAt(ns, i, path) {
        OneNode(ns, i, path);
      }
      if Find(ns.nodes, path) >= 0 {
        assert NodeAt(ns, Find(ns.nodes, path), path);
      }
    }
  }

  lemma PathLimit(p: Path)
    ensures PathOk(p) ==> |p| <= 95
  {
    hide Utf8.Valid;
  }

  /** A removal succeeds exactly when one node may be removed, and blanks that node only. */
  lemma RemoveExact(ns: Ns, owner: nat, dir: nat, name: Path, kind: Kind)
    requires Inv(ns) && Linked(ns)
    ensures var (nt, r) := Remove(ns, owner, dir, name, kind);
            && (r.Done? <==> exists i: nat :: MayRemove(ns, owner, dir, name, kind, i)) && (!r.Done? ==> nt == ns)
            && (forall i: nat :: MayRemove(ns, owner, dir, name, kind, i) ==> i < |ns.nodes| && nt == ns.(nodes := ns.nodes[i := BLANK]))
  {
    hide Inv, RemoveCheck, MayRemove;
    var c := RemoveCheck(ns, owner, dir, name, kind);
    if c.Done? {
      RemoveCheckExact(ns, owner, dir, name, kind, c.value);
    }
    forall i: nat | MayRemove(ns, owner, dir, name, kind, i)
      ensures c == Done(i)
    {
      RemoveCheckExact(ns, owner, dir, name, kind, i);
    }
  }

  // ------------------------------------------- truncation, disks, console

  /** A file is truncated exactly for a writer, within its capacity. */
  lemma TruncateExact(ns: Ns, owner: nat, h: nat, n: nat, disk: Answer)
    requires Inv(ns) && Linked(ns) && AllSane(ns)
    ensures var (nt, r) := Truncate(ns, owner, h, n, disk);
            var d := DescOf(ns, owner, h);
            d >= 0 && ns.nodes[ns.descs[d].node].kind == File ==>
              && (r == Done(0) <==> ns.descs[d].mode / 2 % 2 == 1 && !ns.nodes[ns.descs[d].node].readonly && n <= 1024)
              && (r != Done(0) ==> nt == ns)
  {
    hide Inv, SlotOf;
  }

  /** The handle is open, by description `d`, on node `i`. */
  ghost predicate OpenOn(ns: Ns, owner: nat, h: nat, d: nat, i: nat) {
    && DescOf(ns, owner, h) == d && d < |ns.descs| && ns.descs[d].node == i && i < |ns.nodes|
  }

  /** A disk read returns what the backend moved, and the cursor moves by that much. */
  lemma DiskRead(ns: Ns, owner: nat, h: nat, d: nat, i: nat, n: nat, moved: seq<byte>)
    requires Linked(ns) && AllSane(ns) && OpenOn(ns, owner, h, d, i) && ns.nodes[i].kind == Disk
    requires ns.descs[d].mode % 2 == 1 && 0 < n && |moved| <= n && ns.descs[d].offset + |moved| <= U32_MAX
    ensures Read(ns, owner, h, n, Moves(moved)) ==
              (ns.(descs := ns.descs[d := ns.descs[d].(offset := ns.descs[d].offset + |moved|)]), Data(moved))
  {
    hide SlotOf, DescOf, Queue, Contents, AllSane, Linked;
  }

  /** A disk write hands the backend the bytes and the cursor, which moves by what the backend took. */
  lemma DiskWrite(ns: Ns, owner: nat, h: nat, d: nat, i: nat, b: seq<byte>, moved: seq<byte>)
    requires Linked(ns) && AllSane(ns) && OpenOn(ns, owner, h, d, i) && ns.nodes[i].kind == Disk && !ns.nodes[i].readonly
    requires ns.descs[d].mode / 2 % 2 == 1 && b != [] && |moved| <= |b| && ns.descs[d].offset + |moved| <= U32_MAX
    ensures var (nt, r) := Write(ns, owner, h, b, Moves(moved));
            var off := ns.descs[d].offset;
            && r == Done(|moved|) && nt.calls == ns.calls + [Wrote(ns.nodes[i].external, off, b)]
            && nt.descs == ns.descs[d := ns.descs[d].(offset := off + |moved|)] && |nt.nodes| == |ns.nodes|
            && nt.nodes[i].size == if off + |moved| > ns.nodes[i].size then off + |moved| else ns.nodes[i].size
  {
    hide SlotOf, DescOf, RingPut, FilePut, AllSane, Linked;
  }

  /** What is written to the console is printed, and nothing else changes. */
  lemma ConsoleWrite(ns: Ns, owner: nat, h: nat, d: nat, i: nat, b: seq<byte>, moved: seq<byte>)
    requires Linked(ns) && AllSane(ns) && OpenOn(ns, owner, h, d, i) && ns.nodes[i].kind == Console && !ns.nodes[i].readonly
    requires ns.descs[d].mode / 2 % 2 == 1 && b != []
    ensures Write(ns, owner, h, b, Moves(moved)) == (ns.(calls := ns.calls + [Printed(b)]), Done(|moved|))
  {
    hide SlotOf, DescOf, RingPut, FilePut, AllSane, Linked;
  }

  /** A mount goes exactly when nothing on it is open: its nodes go, the disk directory is given back. */
  lemma UnmountExact(ns: Ns, tag: nat)
    requires Inv(ns) && Linked(ns)
    ensures var (nt, r) := Unmount(ns, tag);
            && (r == Done(0) <==> tag != 0 && forall d :: 0 <= d < |ns.descs| && ns.descs[d].refs > 0 ==> ns.nodes[ns.descs[d].node].tag != tag)
            && (r != Done(0) ==> nt == ns)
            && (r == Done(0) ==>
                  && nt.descs == ns.descs && nt.handles == ns.handles && |nt.nodes| == |ns.nodes|
                  && forall i :: 0 <= i < |ns.nodes| ==>
                       nt.nodes[i] == if ns.nodes[i].tag != tag then ns.nodes[i]
                                      else if ns.nodes[i].path == [47, 100, 105, 115, 107] then ns.nodes[i].(tag := 0, readonly := false)
                                      else BLANK)
  {
    hide Inv;
  }
}
