/** Reference counts, writer counts and the mount ledger, kept by every namespace operation. */
module NsInvariant {
  import opened Bytes
  import opened Paths
  import opened Namespace

  // --------------------------------------------------------------- counting

  function Ones(s: seq<bool>): nat {
    if s == [] then 0 else Ones(s[..|s| - 1]) + (if s[|s| - 1] then 1 else 0)
  }

  lemma {:induction false} OnesUpdate(s: seq<bool>, i: nat, b: bool)
    requires i < |s|
    ensures Ones(s[i := b]) == Ones(s) - (if s[i] then 1 else 0) + (if b then 1 else 0)
  {
    var n := |s| - 1;
    if i < n {
      OnesUpdate(s[..n], i, b);
      assert s[i := b][..n] == s[..n][i := b];
    } else {
      assert s[i := b][..n] == s[..n];
    }
  }

  lemma {:induction false} OnesSome(s: seq<bool>, i: nat)
    requires i < |s| && s[i]
    ensures Ones(s) > 0
  {
    OnesUpdate(s, i, false);
  }

  lemma {:induction false} OnesNone(s: seq<bool>)
    requires forall i :: 0 <= i < |s| ==> !s[i]
    ensures Ones(s) == 0
  {
    if s != [] {
      OnesNone(s[..|s| - 1]);
    }
  }

  /** Which handles name description `d`. */
  function Naming(handles: seq<Handle>, d: nat): (s: seq<bool>)
    ensures |s| == |handles| && forall i :: 0 <= i < |s| ==> s[i] == (handles[i].desc == d + 1)
  {
    seq(|handles|, i requires 0 <= i < |handles| => handles[i].desc == d + 1)
  }

  /** Which descriptions are open for writing on node `x`. */
  function Writing(descs: seq<Desc>, x: nat): (s: seq<bool>)
    ensures |s| == |descs| && forall i :: 0 <= i < |s| ==> s[i] == WritesTo(descs[i], x)
  {
    seq(|descs|, i requires 0 <= i < |descs| => WritesTo(descs[i], x))
  }

  predicate WritesTo(d: Desc, x: nat) { d.refs > 0 && d.node == x && Writes(d.mode) }

  /** Which descriptions are open on the mount `tag`. */
  function Mounted(nodes: seq<Node>, descs: seq<Desc>, tag: nat): (s: seq<bool>)
    ensures |s| == |descs| && forall i :: 0 <= i < |s| ==> s[i] == OnMount(nodes, descs[i], tag)
  {
    seq(|descs|, i requires 0 <= i < |descs| => OnMount(nodes, descs[i], tag))
  }

  predicate OnMount(nodes: seq<Node>, d: Desc, tag: nat) { d.refs > 0 && d.node < |nodes| && nodes[d.node].tag == tag }

  /** Mount openings minus closings. */
  function Balance(calls: seq<Call>, tag: nat): int {
    if calls == [] then 0
    else
      var c := calls[|calls| - 1];
      Balance(calls[..|calls| - 1], tag) + (if c == Opened(tag) then 1 else if c == Closed(tag) then -1 else 0)
  }

  lemma BalanceStep(calls: seq<Call>, c: Call, tag: nat)
    ensures Balance(calls + [c], tag) == Balance(calls, tag) + (if c == Opened(tag) then 1 else if c == Closed(tag) then -1 else 0)
  {
    assert (calls + [c])[..|calls|] == calls;
  }

  // -------------------------------------------------------------- invariant

  ghost predicate RefsExact(ns: Ns) {
    forall d :: 0 <= d < |ns.descs| ==> ns.descs[d].refs == Ones(Naming(ns.handles, d))
  }

  ghost predicate WritersExact(ns: Ns) {
    forall x :: 0 <= x < |ns.nodes| ==> ns.nodes[x].writers == if ns.nodes[x].kind == Pipe then Ones(Writing(ns.descs, x)) else 0
  }

  predicate OnePath(nodes: seq<Node>) {
    forall i, j :: 0 <= i < j < |nodes| && nodes[i].kind != NoNode && nodes[j].kind != NoNode ==> nodes[i].path != nodes[j].path
  }

  predicate GoodPaths(nodes: seq<Node>) { forall i :: 0 <= i < |nodes| && nodes[i].kind != NoNode ==> PathOk(nodes[i].path) }

  predicate Owned(handles: seq<Handle>) { forall i :: 0 <= i < |handles| && handles[i].desc != 0 ==> handles[i].owner != 0 }

  ghost predicate Inv(ns: Ns) {
    && Linked(ns) && AllSane(ns) && OnePath(ns.nodes) && GoodPaths(ns.nodes) && Owned(ns.handles)
    && RefsExact(ns) && WritersExact(ns) && PipesUnmoved(ns)
  }

  /** The cursor of a description open on a pipe never leaves zero. */
  predicate PipesUnmoved(ns: Ns) {
    forall d :: 0 <= d < |ns.descs| && ns.descs[d].refs > 0 && ns.descs[d].node < |ns.nodes| ==>
      ns.nodes[ns.descs[d].node].kind == Pipe ==> ns.descs[d].offset == 0
  }

  /** Mount openings minus closings are the live descriptions on the mount. */
  ghost predicate Ledger(ns: Ns) {
    forall tag: nat :: tag != 0 ==> Balance(ns.calls, tag) == Ones(Mounted(ns.nodes, ns.descs, tag))
  }

  /** A live description keeps naming the node it opened: same path, kind and mode; it may only close. */
  predicate SameDesc(ns: Ns, nt: Ns, d: nat)
    requires d < |ns.descs| == |nt.descs|
  {
    ns.descs[d].refs > 0 ==>
      || nt.descs[d].refs == 0
      || (&& nt.descs[d].node == ns.descs[d].node && nt.descs[d].mode == ns.descs[d].mode
          && ns.descs[d].node < |ns.nodes| == |nt.nodes|
          && nt.nodes[ns.descs[d].node].path == ns.nodes[ns.descs[d].node].path
          && nt.nodes[ns.descs[d].node].kind == ns.nodes[ns.descs[d].node].kind)
  }

  predicate Stable(ns: Ns, nt: Ns) {
    && |nt.nodes| == |ns.nodes| && |nt.descs| == |ns.descs| && |nt.handles| == |ns.handles|
    && forall d :: 0 <= d < |ns.descs| ==> SameDesc(ns, nt, d)
  }

  /** An operation keeps everything. */
  ghost predicate Kept(ns: Ns, nt: Ns) {
    Inv(nt) && Stable(ns, nt) && (Ledger(ns) ==> Ledger(nt))
  }

  lemma KeptRefl(ns: Ns)
    requires Inv(ns)
    ensures Kept(ns, ns)
  {
    hide RefsExact, WritersExact, AllSane, OnePath, GoodPaths, Ledger;
  }

  // --------------------------------------------------- node-only changes

  /** A node keeps its identity and what the counts depend on. */
  predicate SameNode(a: Node, b: Node) { b.path == a.path && b.kind == a.kind && b.writers == a.writers && b.tag == a.tag }

  lemma LedgerSame(ns: Ns, nt: Ns)
    requires |nt.nodes| == |ns.nodes| && |nt.descs| == |ns.descs|
    requires forall tag: nat :: tag != 0 ==> Balance(nt.calls, tag) == Balance(ns.calls, tag)
    requires forall i :: 0 <= i < |ns.nodes| ==> nt.nodes[i].tag == ns.nodes[i].tag
    requires forall d :: 0 <= d < |ns.descs| ==> (nt.descs[d].refs > 0) == (ns.descs[d].refs > 0) && nt.descs[d].node == ns.descs[d].node
    requires Ledger(ns)
    ensures Ledger(nt)
  {
    hide Balance, Ones;
    forall tag: nat | tag != 0
      ensures Balance(nt.calls, tag) == Ones(Mounted(nt.nodes, nt.descs, tag))
    {
      assert Mounted(nt.nodes, nt.descs, tag) == Mounted(ns.nodes, ns.descs, tag);
    }
  }

  lemma WritersSame(ns: Ns, nt: Ns)
    requires |nt.nodes| == |ns.nodes| && |nt.descs| == |ns.descs|
    requires forall i :: 0 <= i < |ns.nodes| ==> nt.nodes[i].writers == ns.nodes[i].writers && nt.nodes[i].kind == ns.nodes[i].kind
    requires forall d, x :: 0 <= d < |ns.descs| ==> WritesTo(nt.descs[d], x) == WritesTo(ns.descs[d], x)
    requires WritersExact(ns)
    ensures WritersExact(nt)
  {
    hide Ones, WritesTo;
    forall x | 0 <= x < |nt.nodes|
      ensures nt.nodes[x].writers == if nt.nodes[x].kind == Pipe then Ones(Writing(nt.descs, x)) else 0
    {
      assert Writing(nt.descs, x) == Writing(ns.descs, x);
    }
  }

  /** The cursor of a description on a pipe stays where it is. */
  predicate PipeCursorsKept(ns: Ns, nt: Ns)
    requires |nt.descs| == |ns.descs|
  {
    forall d :: 0 <= d < |ns.descs| && ns.descs[d].node < |ns.nodes| && ns.nodes[ns.descs[d].node].kind == Pipe ==>
      nt.descs[d].offset == ns.descs[d].offset
  }

  /** Data, sizes, cursors of files and non-mount calls change; identities and counts do not. */
  lemma DataKeeps(ns: Ns, nt: Ns)
    requires Inv(ns) && AllSane(nt) && nt.handles == ns.handles
    requires |nt.nodes| == |ns.nodes| && |nt.descs| == |ns.descs|
    requires forall i :: 0 <= i < |ns.nodes| ==> SameNode(ns.nodes[i], nt.nodes[i])
    requires forall d :: 0 <= d < |ns.descs| ==> nt.descs[d] == ns.descs[d].(offset := nt.descs[d].offset)
    requires PipeCursorsKept(ns, nt)
    requires forall tag: nat :: tag != 0 ==> Balance(nt.calls, tag) == Balance(ns.calls, tag)
    ensures Kept(ns, nt)
  {
    hide Ones, Balance, PathOk, Sane, Ledger;
    assert forall d, x :: 0 <= d < |ns.descs| ==> WritesTo(nt.descs[d], x) == WritesTo(ns.descs[d], x);
    WritersSame(ns, nt);
    if Ledger(ns) {
      LedgerSame(ns, nt);
    }
  }

  // -------------------------------------------------------------- handles

  /** Handle slot `j`, free so far, now names description `d`. */
  lemma NamingAdd(handles: seq<Handle>, j: nat, h: Handle, d: nat)
    requires j < |handles| && handles[j].desc == 0
    ensures Ones(Naming(handles[j := h], d)) == Ones(Naming(handles, d)) + (if h.desc == d + 1 then 1 else 0)
  {
    hide Ones;
    OnesUpdate(Naming(handles, d), j, h.desc == d + 1);
    assert Naming(handles[j := h], d) == Naming(handles, d)[j := h.desc == d + 1];
  }

  lemma NamingDrop(handles: seq<Handle>, j: nat, h: Handle, d: nat)
    requires j < |handles| && h.desc == 0
    ensures Ones(Naming(handles[j := h], d)) == Ones(Naming(handles, d)) - (if handles[j].desc == d + 1 then 1 else 0)
  {
    hide Ones;
    OnesUpdate(Naming(handles, d), j, false);
    assert Naming(handles[j := h], d) == Naming(handles, d)[j := false];
  }

  lemma WritingSet(descs: seq<Desc>, d: nat, v: Desc, x: nat)
    requires d < |descs|
    ensures Ones(Writing(descs[d := v], x)) ==
              Ones(Writing(descs, x)) - (if WritesTo(descs[d], x) then 1 else 0) + (if WritesTo(v, x) then 1 else 0)
  {
    hide Ones, WritesTo;
    OnesUpdate(Writing(descs, x), d, WritesTo(v, x));
    assert Writing(descs[d := v], x) == Writing(descs, x)[d := WritesTo(v, x)];
  }

  lemma MountedSet(nodes: seq<Node>, descs: seq<Desc>, d: nat, v: Desc, tag: nat)
    requires d < |descs|
    ensures Ones(Mounted(nodes, descs[d := v], tag)) ==
              Ones(Mounted(nodes, descs, tag)) - (if OnMount(nodes, descs[d], tag) then 1 else 0) + (if OnMount(nodes, v, tag) then 1 else 0)
  {
    hide Ones, OnMount;
    OnesUpdate(Mounted(nodes, descs, tag), d, OnMount(nodes, v, tag));
    assert Mounted(nodes, descs[d := v], tag) == Mounted(nodes, descs, tag)[d := OnMount(nodes, v, tag)];
  }

  lemma MountedNodes(a: seq<Node>, b: seq<Node>, descs: seq<Desc>, tag: nat)
    requires forall d :: 0 <= d < |descs| ==> OnMount(a, descs[d], tag) == OnMount(b, descs[d], tag)
    ensures Mounted(a, descs, tag) == Mounted(b, descs, tag)
  {
  }

  /** Description `d` named once more, from slot `j`. */
  function Dupped(ns: Ns, owner: nat, d: nat, j: nat): Ns
    requires d < |ns.descs| && j < |ns.handles|
  {
    ns.(handles := ns.handles[j := Handle(owner, ns.handles[j].generation + 1, d + 1)],
        descs := ns.descs[d := ns.descs[d].(refs := ns.descs[d].refs + 1)])
  }

  lemma DuppedKeeps(ns: Ns, owner: nat, d: nat, j: nat)
    requires Inv(ns) && owner != 0 && d < |ns.descs| && ns.descs[d].refs > 0 && j < |ns.handles| && ns.handles[j].desc == 0
    ensures Kept(ns, Dupped(ns, owner, d, j))
  {
    hide Ones, PathOk, Sane, Ledger, OnePath, GoodPaths, Naming, WritersExact;
    var nt := Dupped(ns, owner, d, j);
    forall e | 0 <= e < |nt.descs|
      ensures nt.descs[e].refs == Ones(Naming(nt.handles, e))
    {
      NamingAdd(ns.handles, j, nt.handles[j], e);
    }
    assert forall e, x :: 0 <= e < |ns.descs| ==> WritesTo(nt.descs[e], x) == WritesTo(ns.descs[e], x);
    WritersSame(ns, nt);
    if Ledger(ns) {
      LedgerSame(ns, nt);
    }
  }

  lemma DupKeeps(ns: Ns, owner: nat, d: nat)
    requires Inv(ns) && owner != 0 && d < |ns.descs| && ns.descs[d].refs > 0
    ensures Kept(ns, NewHandle(ns, owner, d).0)
  {
    hide Kept, Inv, FreeHandle;
    var j := FreeHandle(ns.handles, 0);
    if j >= 0 {
      DuppedKeeps(ns, owner, d, j);
    } else {
      KeptRefl(ns);
    }
  }

  // ----------------------------------------------------------------- open

  /** A successful open: node `i`, description `d`, handle slot `j`. */
  function Opening(ns: Ns, owner: nat, i: nat, mode: nat, d: nat, j: nat): Ns
    requires i < |ns.nodes| && d < |ns.descs| && j < |ns.handles|
  {
    var x := ns.nodes[i];
    Ns(ns.nodes[i := if x.kind == Pipe && Writes(mode) then x.(writers := x.writers + 1) else x],
       ns.descs[d := Desc(i, 0, mode, 1)],
       ns.handles[j := Handle(owner, ns.handles[j].generation + 1, d + 1)],
       if x.tag == 0 then ns.calls else ns.calls + [Opened(x.tag)])
  }

  lemma OpeningKeeps(ns: Ns, owner: nat, i: nat, mode: nat, d: nat, j: nat)
    requires Inv(ns) && owner != 0 && i < |ns.nodes| && ns.nodes[i].kind != NoNode
    requires d < |ns.descs| && ns.descs[d].refs == 0 && j < |ns.handles| && ns.handles[j].desc == 0
    ensures Kept(ns, Opening(ns, owner, i, mode, d, j))
  {
    hide Ones, PathOk, Ledger, WritersExact, Naming, Balance;
    var nt := Opening(ns, owner, i, mode, d, j);
    forall e | 0 <= e < |nt.descs|
      ensures nt.descs[e].refs == Ones(Naming(nt.handles, e))
    {
      NamingAdd(ns.handles, j, nt.handles[j], e);
    }
    OpeningWriters(ns, owner, i, mode, d, j);
    if Ledger(ns) {
      OpeningLedger(ns, owner, i, mode, d, j);
    }
  }

  lemma OpeningWriters(ns: Ns, owner: nat, i: nat, mode: nat, d: nat, j: nat)
    requires WritersExact(ns) && i < |ns.nodes| && d < |ns.descs| && ns.descs[d].refs == 0 && j < |ns.handles|
    ensures WritersExact(Opening(ns, owner, i, mode, d, j))
  {
    hide Ones;
    var nt := Opening(ns, owner, i, mode, d, j);
    forall x | 0 <= x < |nt.nodes|
      ensures nt.nodes[x].writers == if nt.nodes[x].kind == Pipe then Ones(Writing(nt.descs, x)) else 0
    {
      WritingSet(ns.descs, d, nt.descs[d], x);
    }
  }

  lemma OpeningLedger(ns: Ns, owner: nat, i: nat, mode: nat, d: nat, j: nat)
    requires Ledger(ns) && i < |ns.nodes| && d < |ns.descs| && ns.descs[d].refs == 0 && j < |ns.handles|
    ensures Ledger(Opening(ns, owner, i, mode, d, j))
  {
    hide Ones, Balance;
    var nt := Opening(ns, owner, i, mode, d, j);
    forall tag: nat | tag != 0
      ensures Balance(nt.calls, tag) == Ones(Mounted(nt.nodes, nt.descs, tag))
    {
      MountedNodes(ns.nodes, nt.nodes, nt.descs, tag);
      MountedSet(ns.nodes, ns.descs, d, nt.descs[d], tag);
      BalanceStep(ns.calls, Opened(ns.nodes[i].tag), tag);
    }
  }

  /** An open that found no handle slot leaves a dead description and a matched pair of mount calls. */
  function Missed(ns: Ns, i: nat, mode: nat, d: nat): Ns
    requires i < |ns.nodes| && d < |ns.descs|
  {
    var tag := ns.nodes[i].tag;
    ns.(descs := ns.descs[d := Desc(i, 0, mode, 0)], calls := if tag == 0 then ns.calls else ns.calls + [Opened(tag)] + [Closed(tag)])
  }

  lemma MissedKeeps(ns: Ns, i: nat, mode: nat, d: nat)
    requires Inv(ns) && i < |ns.nodes| && d < |ns.descs| && ns.descs[d].refs == 0
    ensures Kept(ns, Missed(ns, i, mode, d))
  {
    hide Ones, PathOk, Sane, Ledger, OnePath, GoodPaths, Balance;
    var nt := Missed(ns, i, mode, d);
    var tag := ns.nodes[i].tag;
    assert forall e, x :: 0 <= e < |ns.descs| ==> WritesTo(nt.descs[e], x) == WritesTo(ns.descs[e], x);
    WritersSame(ns, nt);
    if Ledger(ns) {
      MissedLedger(ns, i, mode, d);
    }
  }

  lemma MissedLedger(ns: Ns, i: nat, mode: nat, d: nat)
    requires Ledger(ns) && i < |ns.nodes| && d < |ns.descs| && ns.descs[d].refs == 0
    ensures Ledger(Missed(ns, i, mode, d))
  {
    hide Ones, Balance;
    var nt, t := Missed(ns, i, mode, d), ns.nodes[i].tag;
    forall tag: nat | tag != 0
      ensures Balance(nt.calls, tag) == Ones(Mounted(nt.nodes, nt.descs, tag))
    {
      MountedSet(ns.nodes, ns.descs, d, nt.descs[d], tag);
      BalanceStep(ns.calls, Opened(t), tag);
      BalanceStep(ns.calls + [Opened(t)], Closed(t), tag);
    }
  }

  /** What `Open` does, in one step. */
  lemma OpenIs(ns: Ns, owner: nat, root: Path, path: Path, mode: nat, mount: Answer)
    ensures var (nt, r) := Open(ns, owner, root, path, mode, mount);
            var e, d, j := OpenCheck(ns, owner, root, path, mode), FreeDesc(ns.descs, 0), FreeHandle(ns.handles, 0);
            if !e.Done? || d < 0 || (ns.nodes[e.value].tag != 0 && mount.Refuses?) then nt == ns && r.Fail?
            else if j < 0 then nt == Missed(ns, e.value, mode, d) && r.Fail?
            else nt == Opening(ns, owner, e.value, mode, d, j) && r == Done(Token(nt.handles[j], j))
  {
    hide OpenCheck, FreeDesc, FreeHandle;
  }

  lemma OpenKeeps(ns: Ns, owner: nat, root: Path, path: Path, mode: nat, mount: Answer)
    requires Inv(ns)
    ensures Kept(ns, Open(ns, owner, root, path, mode, mount).0)
  {
    hide Kept, Open, Opening, Missed;
    OpenIs(ns, owner, root, path, mode, mount);
    var e, d, j := OpenCheck(ns, owner, root, path, mode), FreeDesc(ns.descs, 0), FreeHandle(ns.handles, 0);
    if !e.Done? || d < 0 || (ns.nodes[e.value].tag != 0 && mount.Refuses?) {
      KeptRefl(ns);
    } else if j < 0 {
      MissedKeeps(ns, e.value, mode, d);
    } else {
      OpeningKeeps(ns, owner, e.value, mode, d, j);
    }
  }

  // ---------------------------------------------------------------- close

  lemma CloseKeeps(ns: Ns, s: nat)
    requires Inv(ns) && s < |ns.handles| && ns.handles[s].desc != 0
    ensures Kept(ns, CloseSlot(ns, s))
  {
    hide Ones, PathOk, Ledger, WritersExact, Naming, Balance;
    var nt := CloseSlot(ns, s);
    var d := ns.handles[s].desc - 1;
    forall e | 0 <= e < |nt.descs|
      ensures nt.descs[e].refs == Ones(Naming(nt.handles, e))
    {
      NamingDrop(ns.handles, s, nt.handles[s], e);
    }
    CloseLinked(ns, s);
    CloseWriters(ns, s);
    if Ledger(ns) {
      CloseLedger(ns, s);
    }
  }

  lemma CloseLinked(ns: Ns, s: nat)
    requires Inv(ns) && s < |ns.handles| && ns.handles[s].desc != 0
    requires RefsExact(CloseSlot(ns, s))
    ensures Linked(CloseSlot(ns, s))
  {
    hide Ones, PathOk, WritersExact, OnePath, GoodPaths, AllSane;
    var nt := CloseSlot(ns, s);
    forall i | 0 <= i < |nt.handles| && nt.handles[i].desc != 0
      ensures nt.handles[i].desc <= |nt.descs| && nt.descs[nt.handles[i].desc - 1].refs > 0
    {
      OnesSome(Naming(nt.handles, nt.handles[i].desc - 1), i);
    }
  }

  lemma CloseWriters(ns: Ns, s: nat)
    requires Inv(ns) && s < |ns.handles| && ns.handles[s].desc != 0
    ensures WritersExact(CloseSlot(ns, s))
  {
    hide Ones, PathOk, RefsExact, OnePath, GoodPaths, AllSane, Owned;
    var nt := CloseSlot(ns, s);
    var d := ns.handles[s].desc - 1;
    forall x | 0 <= x < |nt.nodes|
      ensures nt.nodes[x].writers == if nt.nodes[x].kind == Pipe then Ones(Writing(nt.descs, x)) else 0
    {
      WritingSet(ns.descs, d, nt.descs[d], x);
      if WritesTo(ns.descs[d], x) {
        OnesSome(Writing(ns.descs, x), d);
      }
    }
  }

  lemma CloseLedger(ns: Ns, s: nat)
    requires Linked(ns) && Ledger(ns) && s < |ns.handles| && ns.handles[s].desc != 0
    ensures Ledger(CloseSlot(ns, s))
  {
    hide Ones, Balance;
    var nt := CloseSlot(ns, s);
    var d := ns.handles[s].desc - 1;
    forall tag: nat | tag != 0
      ensures Balance(nt.calls, tag) == Ones(Mounted(nt.nodes, nt.descs, tag))
    {
      MountedNodes(ns.nodes, nt.nodes, nt.descs, tag);
      MountedSet(ns.nodes, ns.descs, d, nt.descs[d], tag);
      BalanceStep(ns.calls, Closed(ns.nodes[ns.descs[d].node].tag), tag);
    }
  }

  lemma CloseInv(ns: Ns, s: nat)
    requires Inv(ns) && s < |ns.handles| && ns.handles[s].desc != 0
    ensures Inv(CloseSlot(ns, s)) && CloseSlot(ns, s).handles == ns.handles[s := ns.handles[s].(desc := 0)]
  {
    hide Inv;
    CloseKeeps(ns, s);
    InvLinked(ns);
    CloseHandles(ns, s);
  }

  lemma CloseHandles(ns: Ns, s: nat)
    requires Linked(ns) && s < |ns.handles| && ns.handles[s].desc != 0
    ensures CloseSlot(ns, s).handles == ns.handles[s := ns.handles[s].(desc := 0)]
    ensures |CloseSlot(ns, s).descs| == |ns.descs|
    ensures forall d :: 0 <= d < |ns.descs| ==> CloseSlot(ns, s).descs[d].refs <= ns.descs[d].refs
  {
  }

  /** Closing every handle of `owner` from slot `i` on, in slot order. */
  ghost function ReapFrom(ns: Ns, owner: nat, i: nat): Ns
    requires Inv(ns) && i <= |ns.handles|
    decreases |ns.handles| - i
  {
    if i == |ns.handles| then ns
    else if ns.handles[i].desc != 0 && ns.handles[i].owner == owner then
      CloseInv(ns, i);
      ReapFrom(CloseSlot(ns, i), owner, i + 1)
    else ReapFrom(ns, owner, i + 1)
  }

  /** Reaping removes exactly the handles of one owner and keeps every count. */
  lemma {:induction false} ReapKeeps(ns: Ns, owner: nat, i: nat)
    requires Inv(ns) && i <= |ns.handles|
    ensures var nt := ReapFrom(ns, owner, i);
            && Kept(ns, nt)
            && (forall k :: 0 <= k < |ns.handles| ==>
                  nt.handles[k] == if k >= i && ns.handles[k].desc != 0 && ns.handles[k].owner == owner then ns.handles[k].(desc := 0) else ns.handles[k])
            && (forall d :: 0 <= d < |ns.descs| ==> nt.descs[d].refs <= ns.descs[d].refs)
    decreases |ns.handles| - i
  {
    hide Inv, CloseSlot, Ledger, Stable;
    if i == |ns.handles| {
      KeptRefl(ns);
      StableSizes(ns, ns);
    } else if ns.handles[i].desc != 0 && ns.handles[i].owner == owner {
      CloseInv(ns, i);
      CloseKeeps(ns, i);
      assert Linked(ns) by { InvLinked(ns); }
      CloseHandles(ns, i);
      var mid := CloseSlot(ns, i);
      ReapKeeps(mid, owner, i + 1);
      var nt := ReapFrom(mid, owner, i + 1);
      StableSizes(ns, mid);
      StableSizes(mid, nt);
      KeptTrans(ns, mid, nt);
    } else {
      ReapKeeps(ns, owner, i + 1);
      StableSizes(ns, ReapFrom(ns, owner, i + 1));
    }
  }

  lemma InvLinked(ns: Ns)
    requires Inv(ns)
    ensures Linked(ns) && AllSane(ns)
  {
  }

  lemma StableSizes(ns: Ns, nt: Ns)
    requires Stable(ns, nt)
    ensures |nt.nodes| == |ns.nodes| && |nt.descs| == |ns.descs| && |nt.handles| == |ns.handles|
  {
  }

  /** Descriptions only close on the way, so stability composes. */
  lemma KeptTrans(a: Ns, b: Ns, c: Ns)
    requires Inv(a) && Kept(a, b) && Kept(b, c)
    requires |a.descs| == |b.descs| == |c.descs|
    requires forall d :: 0 <= d < |a.descs| && b.descs[d].refs == 0 ==> c.descs[d].refs == 0
    ensures Kept(a, c)
  {
    hide Inv, Ledger;
    forall d | 0 <= d < |a.descs|
      ensures SameDesc(a, c, d)
    {
      assert SameDesc(a, b, d) && SameDesc(b, c, d);
    }
  }

  // ---------------------------------------------------------- node changes

  /** A node nobody has open may be replaced by an unmounted one. */
  lemma ReplaceKeeps(ns: Ns, i: nat, x: Node)
    requires Inv(ns) && i < |ns.nodes| && !InUse(ns.descs, i) && ns.nodes[i].tag == 0
    requires Sane(x) && x.tag == 0 && x.writers == 0
    requires x.kind != NoNode ==> PathOk(x.path) && forall k :: 0 <= k < |ns.nodes| && k != i ==> ns.nodes[k].kind == NoNode || ns.nodes[k].path != x.path
    ensures Kept(ns, SetNode(ns, i, x))
  {
    hide Ones, PathOk, Sane, Ledger, RefsExact;
    var nt := SetNode(ns, i, x);
    forall d | 0 <= d < |ns.descs| && ns.descs[d].refs > 0
      ensures ns.descs[d].node != i
    {
      assert !(ns.descs[d].refs > 0 && ns.descs[d].node == i);
    }
    forall k | 0 <= k < |nt.nodes|
      ensures nt.nodes[k].writers == if nt.nodes[k].kind == Pipe then Ones(Writing(nt.descs, k)) else 0
    {
      if k == i {
        OnesNone(Writing(nt.descs, k));
      }
    }
    assert RefsExact(nt) by { RefsSame(ns, nt); }
    if Ledger(ns) {
      LedgerSame(ns, nt);
    }
  }

  lemma RefsSame(ns: Ns, nt: Ns)
    requires RefsExact(ns) && nt.handles == ns.handles && |nt.descs| == |ns.descs|
    requires forall d :: 0 <= d < |ns.descs| ==> nt.descs[d].refs == ns.descs[d].refs
    ensures RefsExact(nt)
  {
    hide Ones, Naming;
  }

  lemma BlankSane()
    ensures Sane(BLANK) && BLANK.kind == NoNode && BLANK.tag == 0 && BLANK.writers == 0
  {
  }

  lemma CreateKeeps(ns: Ns, p: Path, kind: Kind, ro: bool)
    requires Inv(ns)
    ensures Kept(ns, Create(ns, p, kind, ro).0)
  {
    hide Kept, Sane, Find, FreeNode, RefsExact, WritersExact, CreateError;
    if CreateError(ns, p, kind) == Done(0) {
      var i := FreeNode(ns.nodes, 0);
      BlankSane();
      FreshSane(p, kind, ro);
      NoTag(ns, i);
      ReplaceKeeps(ns, i, BLANK.(path := p, kind := kind, readonly := ro));
    } else {
      KeptRefl(ns);
    }
  }

  lemma FreshSane(p: Path, kind: Kind, ro: bool)
    ensures Sane(BLANK.(path := p, kind := kind, readonly := ro))
  {
  }

  lemma NoTag(ns: Ns, i: nat)
    requires Inv(ns) && i < |ns.nodes| && ns.nodes[i].kind == NoNode
    ensures ns.nodes[i].tag == 0 && !InUse(ns.descs, i)
  {
    hide RefsExact, WritersExact, PathOk;
    assert Sane(ns.nodes[i]);
  }

  lemma RemoveKeeps(ns: Ns, owner: nat, dir: nat, name: Path, kind: Kind)
    requires Inv(ns) && Linked(ns)
    ensures Kept(ns, Remove(ns, owner, dir, name, kind).0)
  {
    hide Kept, Sane, Inv, RemoveCheck, InUse;
    var e := RemoveCheck(ns, owner, dir, name, kind);
    if e.Done? {
      BlankSane();
      ReplaceKeeps(ns, e.value, BLANK);
    } else {
      KeptRefl(ns);
    }
  }

  lemma UnmountKeeps(ns: Ns, tag: nat)
    requires Inv(ns) && Linked(ns)
    ensures Kept(ns, Unmount(ns, tag).0)
  {
    hide Ones, PathOk, Ledger, RefsExact, WritersExact;
    var nt := Unmount(ns, tag).0;
    if tag == 0 || MountInUse(ns, tag) {
      KeptRefl(ns);
    } else {
      BlankSane();
      forall d | 0 <= d < |ns.descs| && ns.descs[d].refs > 0
        ensures nt.nodes[ns.descs[d].node] == ns.nodes[ns.descs[d].node]
      {
        assert !(ns.descs[d].refs > 0 && ns.nodes[ns.descs[d].node].tag == tag);
      }
      RefsSame(ns, nt);
      UnmountWriters(ns, tag);
      if Ledger(ns) {
        UnmountLedger(ns, tag);
      }
    }
  }

  lemma UnmountWriters(ns: Ns, tag: nat)
    requires Inv(ns) && Linked(ns) && tag != 0 && !MountInUse(ns, tag)
    ensures WritersExact(Unmount(ns, tag).0)
  {
    hide Ones, PathOk, RefsExact, Sane;
    BlankSane();
    var nt := Unmount(ns, tag).0;
    forall x | 0 <= x < |nt.nodes|
      ensures nt.nodes[x].writers == if nt.nodes[x].kind == Pipe then Ones(Writing(nt.descs, x)) else 0
    {
      assert nt.descs == ns.descs;
    }
  }

  lemma UnmountLedger(ns: Ns, tag: nat)
    requires Ledger(ns) && Linked(ns) && tag != 0 && !MountInUse(ns, tag)
    ensures Ledger(Unmount(ns, tag).0)
  {
    hide Ones, Balance;
    var nt := Unmount(ns, tag).0;
    forall t: nat | t != 0
      ensures Balance(nt.calls, t) == Ones(Mounted(nt.nodes, nt.descs, t))
    {
      forall d | 0 <= d < |ns.descs|
        ensures OnMount(ns.nodes, ns.descs[d], t) == OnMount(nt.nodes, ns.descs[d], t)
      {
        assert !(ns.descs[d].refs > 0 && ns.nodes[ns.descs[d].node].tag == tag);
      }
      MountedNodes(ns.nodes, nt.nodes, ns.descs, t);
    }
  }

  // --------------------------------------------------------------- mounting

  /** Mounting keeps references, writers and identities. */
  lemma AttachKeeps(ns: Ns, i: nat, external: nat, size: nat, tag: nat, ro: bool)
    requires Inv(ns) && i < |ns.nodes|
    ensures Inv(Attach(ns, i, external, size, tag, ro)) && Stable(ns, Attach(ns, i, external, size, tag, ro))
  {
    hide Ones, PathOk, RefsExact, WritersExact;
    var nt := Attach(ns, i, external, size, tag, ro);
    RefsSame(ns, nt);
    assert forall e, x :: 0 <= e < |ns.descs| ==> WritesTo(nt.descs[e], x) == WritesTo(ns.descs[e], x);
    WritersSame(ns, nt);
  }

  /**
   Mounting keeps the ledger exactly when the node's mount does not change or
   nobody has the node open: a directory opened before the mount would later be
   closed against a mount it was never opened on.
   */
  lemma AttachLedger(ns: Ns, i: nat, external: nat, size: nat, tag: nat, ro: bool)
    requires Inv(ns) && Ledger(ns) && i < |ns.nodes| && ns.nodes[i].kind in {Dir, Disk}
    ensures Ledger(Attach(ns, i, external, size, tag, ro)) <==> (tag == ns.nodes[i].tag || !InUse(ns.descs, i))
  {
    hide Ones, Balance, Inv;
    var nt, was := Attach(ns, i, external, size, tag, ro), ns.nodes[i].tag;
    if tag == was || !InUse(ns.descs, i) {
      forall t: nat | t != 0
        ensures Balance(nt.calls, t) == Ones(Mounted(nt.nodes, nt.descs, t))
      {
        forall d | 0 <= d < |ns.descs|
          ensures OnMount(ns.nodes, ns.descs[d], t) == OnMount(nt.nodes, ns.descs[d], t)
        {
          assert InUse(ns.descs, i) || !(ns.descs[d].refs > 0 && ns.descs[d].node == i);
        }
        MountedNodes(ns.nodes, nt.nodes, ns.descs, t);
      }
    } else {
      var t := if tag != 0 then tag else was;
      MountedShift(ns, nt, i, t, tag != 0);
      assert Balance(nt.calls, t) != Ones(Mounted(nt.nodes, nt.descs, t));
    }
  }

  lemma MountedShift(ns: Ns, nt: Ns, i: nat, t: nat, gains: bool)
    requires i < |ns.nodes| == |nt.nodes| && nt.descs == ns.descs && InUse(ns.descs, i)
    requires forall k :: 0 <= k < |ns.nodes| && k != i ==> nt.nodes[k].tag == ns.nodes[k].tag
    requires (nt.nodes[i].tag == t) == gains && (ns.nodes[i].tag == t) == !gains
    ensures Ones(Mounted(nt.nodes, nt.descs, t)) != Ones(Mounted(ns.nodes, ns.descs, t))
  {
    hide Ones;
    var d :| 0 <= d < |ns.descs| && ns.descs[d].refs > 0 && ns.descs[d].node == i;
    var small := if gains then Mounted(ns.nodes, ns.descs, t) else Mounted(nt.nodes, nt.descs, t);
    var large := if gains then Mounted(nt.nodes, nt.descs, t) else Mounted(ns.nodes, ns.descs, t);
    OnesFewer(small, large, d);
  }

  lemma {:induction false} OnesFewer(a: seq<bool>, b: seq<bool>, i: nat)
    requires |a| == |b| && i < |a| && !a[i] && b[i] && forall k :: 0 <= k < |a| && a[k] ==> b[k]
    ensures Ones(a) < Ones(b)
  {
    OnesLess(a, b[i := false]);
    OnesUpdate(b, i, false);
  }

  lemma {:induction false} OnesLess(a: seq<bool>, b: seq<bool>)
    requires |a| == |b| && forall k :: 0 <= k < |a| && a[k] ==> b[k]
    ensures Ones(a) <= Ones(b)
  {
    if a != [] {
      OnesLess(a[..|a| - 1], b[..|b| - 1]);
    }
  }

  lemma DelegateKeeps(ns: Ns, owner: nat, h: nat, to: nat)
    requires Inv(ns) && to != 0
    ensures Kept(ns, Delegate(ns, owner, h, to))
  {
    hide Ones, PathOk, Sane, Ledger, RefsExact, WritersExact, SlotOf;
    var nt := Delegate(ns, owner, h, to);
    forall d | 0 <= d < |nt.descs|
      ensures nt.descs[d].refs == Ones(Naming(nt.handles, d))
    {
      assert Naming(nt.handles, d) == Naming(ns.handles, d);
      assert ns.descs[d].refs == Ones(Naming(ns.handles, d)) by { RefsOf(ns, d); }
    }
    assert RefsExact(nt) by { RefsAll(nt); }
    WritersSame(ns, nt);
    if Ledger(ns) {
      LedgerSame(ns, nt);
    }
  }

  lemma RefsOf(ns: Ns, d: nat)
    requires RefsExact(ns) && d < |ns.descs|
    ensures ns.descs[d].refs == Ones(Naming(ns.handles, d))
  {
  }

  lemma RefsAll(ns: Ns)
    requires forall d :: 0 <= d < |ns.descs| ==> ns.descs[d].refs == Ones(Naming(ns.handles, d))
    ensures RefsExact(ns)
  {
  }

  // --------------------------------------------------------- data changes

  lemma ReadKeeps(ns: Ns, owner: nat, h: nat, n: nat, disk: Answer)
    requires Inv(ns) && Linked(ns) && AllSane(ns)
    ensures Kept(ns, Read(ns, owner, h, n, disk).0)
  {
    hide Kept, Queue, Contents, Inv, Balance;
    DataKeeps(ns, Read(ns, owner, h, n, disk).0);
  }

  lemma WriteKeeps(ns: Ns, owner: nat, h: nat, b: seq<byte>, disk: Answer)
    requires Inv(ns) && Linked(ns) && AllSane(ns)
    ensures Kept(ns, Write(ns, owner, h, b, disk).0)
  {
    hide Kept, Inv, Balance, RingPut, FilePut;
    var nt := Write(ns, owner, h, b, disk).0;
    QuietCalls(ns, nt);
    DataKeeps(ns, nt);
  }

  lemma TruncateKeeps(ns: Ns, owner: nat, h: nat, n: nat, disk: Answer)
    requires Inv(ns) && Linked(ns) && AllSane(ns)
    ensures Kept(ns, Truncate(ns, owner, h, n, disk).0)
  {
    hide Kept, Inv, Balance;
    var nt := Truncate(ns, owner, h, n, disk).0;
    QuietCalls(ns, nt);
    DataKeeps(ns, nt);
  }

  lemma SeekKeeps(ns: Ns, owner: nat, h: nat, off: nat)
    requires Inv(ns) && Linked(ns)
    ensures Kept(ns, Seek(ns, owner, h, off).0)
  {
    hide Kept, Inv, Balance, Sane;
    InvLinked(ns);
    DataKeeps(ns, Seek(ns, owner, h, off).0);
  }

  /** Only mount calls move the balance. */
  lemma QuietCalls(ns: Ns, nt: Ns)
    requires nt.calls == ns.calls || exists c :: nt.calls == ns.calls + [c] && !c.Opened? && !c.Closed?
    ensures forall tag: nat :: Balance(nt.calls, tag) == Balance(ns.calls, tag)
  {
    hide Balance;
    if nt.calls != ns.calls {
      var c :| nt.calls == ns.calls + [c] && !c.Opened? && !c.Closed?;
      forall tag: nat
        ensures Balance(nt.calls, tag) == Balance(ns.calls, tag)
      {
        BalanceStep(ns.calls, c, tag);
      }
    }
  }
}
