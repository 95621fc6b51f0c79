/**
 The dependency-cycle finder: depth-first search with node marks, spelling the
 current path into a caller's buffer.
 */
module Cycle {

  const NODES := 16
  const NUL := '\0'

  datatype Result = Clear | Invalid | Dependency

  type Graph = seq<set<nat>>

  predicate Edge(g: Graph, a: nat, b: nat) { a < |g| && b < |g| && b in g[a] }

  predicate InRange(g: Graph) { forall i, j :: 0 <= i < |g| && j in g[i] ==> j < |g| }

  ghost predicate IsWalk(g: Graph, w: seq<nat>) {
    && |w| > 0 && (forall k :: 0 <= k < |w| ==> w[k] < |g|)
    && forall k :: 0 <= k < |w| - 1 ==> Edge(g, w[k], w[k + 1])
  }

  ghost predicate Closed(w: seq<nat>) { |w| >= 2 && w[|w| - 1] in w[..|w| - 1] }

  ghost predicate Cyclic(g: Graph) { exists w :: IsWalk(g, w) && |w| >= 2 && w[0] == w[|w| - 1] }

  /** A walk whose last node repeats contains a cycle. */
  lemma ClosedIsCyclic(g: Graph, w: seq<nat>)
    requires IsWalk(g, w) && Closed(w)
    ensures Cyclic(g)
  {
    var k :| 0 <= k < |w| - 1 && w[..|w| - 1][k] == w[|w| - 1];
    var c := w[k..];
    assert forall m :: 0 <= m < |c| ==> c[m] == w[k + m];
    assert IsWalk(g, c) && c[0] == c[|c| - 1];
  }

  // -------------------------------------------------------- finished nodes

  /** Nodes in the order they were finished: each one's successors came before it. */
  ghost predicate Finished(g: Graph, order: seq<nat>) {
    && (forall k :: 0 <= k < |order| ==> order[k] < |g|)
    && forall k, b: nat :: 0 <= k < |order| && Edge(g, order[k], b) ==> b in order[..k]
  }

  function Rank(order: seq<nat>, v: nat): (k: nat)
    ensures k <= |order| && (k < |order| ==> order[k] == v)
    ensures forall m :: 0 <= m < k ==> order[m] != v
  {
    if order == [] || order[0] == v then 0 else 1 + Rank(order[1..], v)
  }

  lemma RankFalls(g: Graph, order: seq<nat>, a: nat, b: nat)
    requires Finished(g, order) && a in order && Edge(g, a, b)
    ensures b in order && Rank(order, b) < Rank(order, a)
  {
    var k := Rank(order, a);
    assert b in order[..k];
    var m :| 0 <= m < k && order[..k][m] == b;
    assert order[m] == b;
  }

  lemma {:induction false} WalkFalls(g: Graph, order: seq<nat>, w: seq<nat>, k: nat)
    requires Finished(g, order) && IsWalk(g, w) && w[0] in order && 1 <= k < |w|
    ensures w[k] in order && Rank(order, w[k]) < Rank(order, w[0])
  {
    hide Finished, Rank;
    if k > 1 {
      WalkFalls(g, order, w, k - 1);
    }
    assert Edge(g, w[k - 1], w[k]);
    RankFalls(g, order, w[k - 1], w[k]);
  }

  /** A graph all of whose nodes are finished has no cycle. */
  lemma FinishedIsAcyclic(g: Graph, order: seq<nat>)
    requires Finished(g, order) && forall v: nat :: v < |g| ==> v in order
    ensures !Cyclic(g)
  {
    hide Finished, Rank;
    forall w | IsWalk(g, w) && |w| >= 2
      ensures w[0] != w[|w| - 1]
    {
      WalkFalls(g, order, w, |w| - 1);
    }
  }

  // --------------------------------------------------------------- search

  function Letter(i: nat): char
    requires i < NODES
  {
    ('A' as int + i) as char
  }

  /** The buffer starts with the path: a letter and an arrow for each node. */
  ghost predicate Letters(text: seq<char>, path: seq<nat>) {
    2 * |path| <= |text| && forall k :: 0 <= k < |path| && path[k] < NODES ==> text[2 * k] == Letter(path[k]) && text[2 * k + 1] == '>'
  }

  /** ... and, if there is room, ends there. */
  ghost predicate Spells(text: seq<char>, path: seq<nat>) {
    Letters(text, path) && (path != [] && 2 * |path| < |text| ==> text[2 * |path|] == NUL)
  }

  ghost predicate Distinct(p: seq<nat>) { forall a, b :: 0 <= a < b < |p| ==> p[a] != p[b] }

  /** Marks 1 are the nodes on the path, marks 2 the finished ones. */
  ghost predicate Search(g: Graph, marks: seq<nat>, path: seq<nat>, order: seq<nat>) {
    && |marks| == |g| <= NODES
    && (forall v: nat :: v < |g| ==> (marks[v] == 1 <==> v in path) && (marks[v] == 2 <==> v in order) && marks[v] <= 2)
    && (forall v :: v in path ==> v < |g|)
    && Distinct(path) && Finished(g, order)
    && (path != [] ==> IsWalk(g, path))
  }

  function White(marks: seq<nat>): nat {
    if marks == [] then 0 else White(marks[1..]) + (if marks[0] == 0 then 1 else 0)
  }

  lemma {:induction false} WhiteUpdate(marks: seq<nat>, i: nat, m: nat)
    requires i < |marks|
    ensures White(marks[i := m]) == White(marks) - (if marks[i] == 0 then 1 else 0) + (if m == 0 then 1 else 0)
  {
    if i > 0 {
      WhiteUpdate(marks[1..], i - 1, m);
      assert marks[i := m][1..] == marks[1..][i - 1 := m];
    } else {
      assert marks[i := m][1..] == marks[1..];
    }
  }

  ghost function Below(n: nat): (s: set<nat>)
    ensures |s| == n && forall v :: v in s <==> 0 <= v < n
  {
    if n == 0 then {} else Below(n - 1) + {n - 1}
  }

  lemma TailDistinct(p: seq<nat>)
    requires p != [] && Distinct(p)
    ensures Distinct(p[1..]) && p[0] !in p[1..]
  {
    assert forall k :: 0 <= k < |p| - 1 ==> p[1..][k] == p[k + 1];
  }

  ghost function Elements(p: seq<nat>): (s: set<nat>)
    ensures forall v :: v in s <==> v in p
    ensures Distinct(p) ==> |s| == |p|
  {
    if p == [] then {}
    else
      var rest := Elements(p[1..]);
      assert p == [p[0]] + p[1..];
      assert Distinct(p) ==> Distinct(p[1..]) && p[0] !in p[1..] by {
        if Distinct(p) {
          TailDistinct(p);
        }
      }
      {p[0]} + rest
  }

  lemma PathFits(p: seq<nat>, n: nat)
    requires Distinct(p) && forall k :: 0 <= k < |p| ==> p[k] < n
    ensures |p| <= n
  {
    var used, all := Elements(p), Below(n);
    assert used <= all;
    assert all == used + (all - used);
  }

  /** A node joining the path. */
  lemma Enter(g: Graph, marks: seq<nat>, path: seq<nat>, order: seq<nat>, i: nat)
    requires Search(g, marks, path, order) && i < |g| && marks[i] == 0
    requires path != [] ==> Edge(g, path[|path| - 1], i)
    ensures Search(g, marks[i := 1], path + [i], order) && |path| + 1 <= |g|
  {
    var p := path + [i];
    assert forall v :: v in p <==> v in path || v == i;
    assert Distinct(p);
    PathFits(p, |g|);
    assert IsWalk(g, p);
  }

  /** A node all of whose successors are finished leaving the path. */
  lemma Leave(g: Graph, marks: seq<nat>, path: seq<nat>, order: seq<nat>, i: nat)
    requires Search(g, marks, path + [i], order) && i < |g|
    requires forall b: nat :: Edge(g, i, b) ==> b in order
    ensures Search(g, marks[i := 2], path, order + [i])
  {
    var p := path + [i];
    assert forall k :: 0 <= k < |path| ==> p[k] == path[k];
    assert p[|path|] == i && i !in path;
    assert forall v :: v in p <==> v in path || v == i;
    assert forall v :: v in order + [i] <==> v in order || v == i;
    assert path != [] ==> IsWalk(g, path) by {
      assert forall k :: 0 <= k < |path| - 1 ==> Edge(g, p[k], p[k + 1]);
    }
    forall k, b: nat | 0 <= k < |order| + 1 && Edge(g, (order + [i])[k], b)
      ensures b in (order + [i])[..k]
    {
      assert (order + [i])[..k] == order[..k];
      assert order[..|order|] == order;
    }
  }

  /** What a stopped search reports: the path walked, closed by a repeated node if it fits. */
  ghost predicate Reports(g: Graph, text: seq<char>, path: seq<nat>, last: nat) {
    && IsWalk(g, path + [last]) && Closed(path + [last])
    && Distinct(path) && Letters(text, path) && last < NODES
    && (if 2 * |path| + 2 < |text| then text[2 * |path|] == Letter(last) && text[2 * |path| + 1] == NUL
        else 2 * |path| < |text| ==> text[2 * |path|] == NUL)
  }

  /** Reaching a node already on the path closes the walk. */
  lemma ClosesPath(g: Graph, marks: seq<nat>, path: seq<nat>, order: seq<nat>, i: nat)
    requires Search(g, marks, path, order) && i < |g| && marks[i] == 1
    requires path != [] ==> Edge(g, path[|path| - 1], i)
    ensures IsWalk(g, path + [i]) && Closed(path + [i]) && Distinct(path)
  {
    assert i in path;
    assert (path + [i])[..|path|] == path;
  }

  /** Writing past the path does not disturb it. */
  lemma LettersUpdate(text: seq<char>, path: seq<nat>, at: nat, c: char)
    requires Letters(text, path) && 2 * |path| <= at < |text|
    ensures Letters(text[at := c], path)
  {
  }

  lemma LettersNext(text: seq<char>, path: seq<nat>, i: nat, at: nat)
    requires Letters(text, path) && at == 2 * |path| && at + 1 < |text| && i < NODES
    ensures Letters(text[at := Letter(i)][at + 1 := '>'], path + [i])
  {
  }

  lemma LettersPrefix(text: seq<char>, path: seq<nat>, i: nat)
    requires Letters(text, path + [i])
    ensures Letters(text, path)
  {
    assert forall k :: 0 <= k < |path| ==> (path + [i])[k] == path[k];
  }

  /** Every walk without a repeated node can be spelled with room for a terminator. */
  ghost predicate PathsFit(g: Graph, size: nat) {
    forall p :: IsWalk(g, p) && Distinct(p) ==> 2 * |p| < size
  }

  /** A buffer longer than twice the nodes always has that room. */
  lemma LongFits(g: Graph, size: nat)
    requires size > 2 * |g|
    ensures PathsFit(g, size)
  {
    forall p | IsWalk(g, p) && Distinct(p)
      ensures 2 * |p| < size
    {
      PathFits(p, |g|);
    }
  }

  lemma PathHasRoom(g: Graph, marks: seq<nat>, path: seq<nat>, order: seq<nat>, size: nat)
    requires Search(g, marks, path, order) && path != [] && PathsFit(g, size)
    ensures 2 * |path| < size
  {
    hide Finished;
  }

  /** Each node depends on the next one only, the last on none. */
  predicate IsLine(g: Graph) {
    forall k :: 0 <= k < |g| ==> g[k] == if k + 1 < |g| then {k + 1} else {}
  }

  /** A line whose nodes from `i` on have not been visited. */
  predicate Ahead(g: Graph, marks: seq<nat>, i: nat) {
    IsLine(g) && |marks| == |g| && forall k :: i <= k < |g| ==> marks[k] == 0
  }

  method Visit(g: Graph, i: nat, marks: array<nat>, chain: array<char>, depth: nat, ghost path: seq<nat>, ghost order: seq<nat>)
    returns (found: bool, ghost end: seq<nat>, ghost last: nat, ghost done: seq<nat>)
    requires i < |g| && marks.Length == |g| && depth == 2 * |path|
    requires Search(g, marks[..], path, order) && Spells(chain[..], path)
    requires path != [] ==> Edge(g, path[|path| - 1], i)
    modifies marks, chain
    ensures White(marks[..]) <= White(old(marks[..]))
    ensures !found ==> Search(g, marks[..], path, done) && Spells(chain[..], path) && order <= done && i in done
    ensures found && PathsFit(g, chain.Length) ==> Reports(g, chain[..], end, last)
    ensures !found && old(Ahead(g, marks[..], i)) ==> depth + 2 * (|g| - i) < chain.Length
    decreases White(marks[..]), 0
  {
    hide Finished, Rank, White, Search, Letters, IsLine, PathsFit;
    end, last, done := path, i, order;
    SearchSize(g, marks[..], path, order, i);
    if marks[i] == 1 {
      ClosesPath(g, marks[..], path, order, i);
      if depth + 2 < chain.Length {
        LettersUpdate(chain[..], path, depth, Letter(i));
        ghost var before := chain[..];
        chain[depth] := Letter(i);
        assert chain[..] == before[depth := Letter(i)];
        LettersUpdate(chain[..], path, depth + 1, NUL);
        before := chain[..];
        chain[depth + 1] := NUL;
        assert chain[..] == before[depth + 1 := NUL];
      }
      return true, path, i, order;
    }
    if marks[i] == 2 {
      return false, path, i, order;
    }
    Enter(g, marks[..], path, order, i);
    WhiteUpdate(marks[..], i, 1);
    marks[i] := 1;
    assert marks[..] == old(marks[..])[i := 1];
    if depth + 2 >= chain.Length {
      if PathsFit(g, chain.Length) {
        PathHasRoom(g, marks[..], path + [i], order, chain.Length);
      }
      return true, path, i, order;
    }
    PushNode(chain, path, i, depth);
    assert old(Ahead(g, marks[..], i)) ==> Ahead(g, marks[..], i + 1);
    found, end, last, done := Successors(g, i, marks, chain, depth, path, order);
    if found {
      return;
    }
    Leave(g, marks[..], path, done, i);
    WhiteUpdate(marks[..], i, 2);
    ghost var before := marks[..];
    marks[i] := 2;
    assert marks[..] == before[i := 2];
    LettersPrefix(chain[..], path, i);
    LettersUpdate(chain[..], path, depth, NUL);
    ghost var text := chain[..];
    chain[depth] := NUL;
    assert chain[..] == text[depth := NUL];
    done := done + [i];
  }

  method PushNode(chain: array<char>, ghost path: seq<nat>, i: nat, depth: nat)
    requires depth == 2 * |path| && depth + 2 < chain.Length && i < NODES && Spells(chain[..], path)
    modifies chain
    ensures Spells(chain[..], path + [i])
  {
    hide Letters;
    LettersNext(chain[..], path, i, depth);
    ghost var text := chain[..][depth := Letter(i)][depth + 1 := '>'];
    chain[depth] := Letter(i);
    chain[depth + 1] := '>';
    assert chain[..] == text;
    LettersUpdate(text, path + [i], depth + 2, NUL);
    chain[depth + 2] := NUL;
    assert chain[..] == text[depth + 2 := NUL];
  }

  lemma SearchSize(g: Graph, marks: seq<nat>, path: seq<nat>, order: seq<nat>, i: nat)
    requires Search(g, marks, path, order) && i < |g|
    ensures |g| <= NODES && |path| <= |g| && marks[i] <= 2 && (marks[i] == 2 ==> i in order)
  {
    hide Finished;
    PathFits(path, |g|);
  }

  /** The loop over a node's dependencies. */
  method Successors(g: Graph, i: nat, marks: array<nat>, chain: array<char>, depth: nat, ghost path: seq<nat>, ghost order: seq<nat>)
    returns (found: bool, ghost end: seq<nat>, ghost last: nat, ghost done: seq<nat>)
    requires i < |g| && marks.Length == |g| && depth == 2 * |path|
    requires Search(g, marks[..], path + [i], order) && Spells(chain[..], path + [i])
    modifies marks, chain
    ensures White(marks[..]) <= White(old(marks[..]))
    ensures !found ==> Search(g, marks[..], path + [i], done) && Spells(chain[..], path + [i]) && order <= done
    ensures !found ==> forall b: nat :: Edge(g, i, b) ==> b in done
    ensures found && PathsFit(g, chain.Length) ==> Reports(g, chain[..], end, last)
    ensures !found && i + 1 < |g| && old(Ahead(g, marks[..], i + 1)) ==> depth + 2 * (|g| - i) < chain.Length
    decreases White(marks[..]), 1
  {
    hide Search, Spells, White, Reports, PathsFit;
    end, last, done := path, i, order;
    for j := 0 to |g|
      invariant White(marks[..]) <= White(old(marks[..]))
      invariant Search(g, marks[..], path + [i], done) && Spells(chain[..], path + [i]) && order <= done
      invariant forall b: nat :: b < j && Edge(g, i, b) ==> b in done
      invariant IsLine(g) && j <= i + 1 ==> marks[..] == old(marks[..])
      invariant j > i + 1 && old(Ahead(g, marks[..], i + 1)) ==> depth + 2 * (|g| - i) < chain.Length
    {
      if j in g[i] {
        assert Edge(g, (path + [i])[|path|], j);
        ghost var was := done;
        found, end, last, done := Visit(g, j, marks, chain, depth + 2, path + [i], done);
        if found {
          return;
        }
        assert forall b :: b in was ==> b in done;
      }
    }
    found := false;
  }

  /**
   Searches from every node in turn. With a buffer in which every path fits, as in one
   longer than twice the number of nodes, the answer is exact: clear if and only if every dependency is in range and
   the graph has no cycle. A search that stops on a cycle reports a real walk whose
   last node repeats an earlier one; the repeated node is written only if it fits.
   */
  method FindCycle(g: Graph, chain: array<char>) returns (r: Result, ghost end: seq<nat>, ghost last: nat)
    modifies chain
    ensures |g| > NODES || chain.Length < 4 ==> r == Invalid
    ensures |g| <= NODES && chain.Length >= 4 ==> r != Invalid
    ensures |g| <= NODES && chain.Length >= 4 && (chain.Length > 2 * |g| || PathsFit(g, chain.Length)) ==>
              && (r == Clear <==> InRange(g) && !Cyclic(g))
              && (r == Dependency && InRange(g) ==> Reports(g, chain[..], end, last))
    ensures r == Clear ==> chain[0] == NUL && InRange(g) && !Cyclic(g)
    ensures r == Clear && IsLine(g) && g != [] ==> chain.Length > 2 * |g|
  {
    hide Search, Spells, White, Reports, IsWalk, IsLine, PathsFit;
    end, last := [], 0;
    if chain.Length > 2 * |g| {
      LongFits(g, chain.Length);
    }
    if |g| > NODES || chain.Length < 4 {
      return Invalid, [], 0;
    }
    var marks := new nat[|g|](_ => 0);
    ghost var done: seq<nat> := [];
    SearchStarts(g, marks[..], chain[..]);
    for i := 0 to |g|
      invariant Search(g, marks[..], [], done) && Spells(chain[..], [])
      invariant forall v: nat :: v < i ==> v in done && forall j :: j in g[v] ==> j < |g|
      invariant i == 0 ==> forall k :: 0 <= k < |g| ==> marks[k] == 0
      invariant i > 0 && IsLine(g) ==> chain.Length > 2 * |g|
    {
      if exists j | j in g[i] :: j >= |g| {
        return Dependency, [], 0;
      }
      var found;
      ghost var was := done;
      found, end, last, done := Visit(g, i, marks, chain, 0, [], done);
      if found {
        if PathsFit(g, chain.Length) {
          ReportsCycle(g, chain[..], end, last);
        }
        return Dependency, end, last;
      }
      assert forall b :: b in was ==> b in done;
    }
    SearchEnds(g, marks[..], done);
    chain[0] := NUL;
    r := Clear;
  }

  lemma SearchStarts(g: Graph, marks: seq<nat>, text: seq<char>)
    requires |marks| == |g| <= NODES && forall v :: 0 <= v < |g| ==> marks[v] == 0
    ensures Search(g, marks, [], []) && Spells(text, [])
  {
  }

  lemma SearchEnds(g: Graph, marks: seq<nat>, done: seq<nat>)
    requires Search(g, marks, [], done) && forall v: nat :: v < |g| ==> v in done
    ensures !Cyclic(g)
  {
    hide Finished;
    FinishedIsAcyclic(g, done);
  }

  lemma ReportsCycle(g: Graph, text: seq<char>, end: seq<nat>, last: nat)
    requires Reports(g, text, end, last)
    ensures Cyclic(g)
  {
    ClosedIsCyclic(g, end + [last]);
  }

  /** The buffer names the whole closed walk, repeated node included. */
  ghost predicate Complete(text: seq<char>, path: seq<nat>, last: nat) {
    last < NODES && Letters(text, path) && 2 * |path| + 1 < |text| && text[2 * |path|] == Letter(last) && text[2 * |path| + 1] == NUL
  }

  /** A report is complete when two places and one spare follow the path. */
  lemma ClosingNeedsRoom(g: Graph, text: seq<char>, path: seq<nat>, last: nat)
    requires Reports(g, text, path, last)
    ensures Complete(text, path, last) <==> 2 * |path| + 2 < |text|
  {
  }

  lemma ReportFits(g: Graph, text: seq<char>, path: seq<nat>, last: nat)
    requires Reports(g, text, path, last)
    ensures |path| <= |g|
  {
    hide Letters;
    forall k | 0 <= k < |path|
      ensures path[k] < |g|
    {
      assert path[k] == (path + [last])[k];
    }
    PathFits(path, |g|);
  }

  // ----------------------------------------------------------------- rings

  function Succ(i: nat, l: nat): nat { if i + 1 < l then i + 1 else 0 }

  /** `n` nodes, the first `l` of which depend on each other in a ring. */
  function Ring(n: nat, l: nat): (g: Graph)
    requires l <= n
    ensures |g| == n
  {
    seq(n, i requires 0 <= i < n => if i < l then {Succ(i, l)} else {})
  }

  /** In a ring a closed walk with no earlier repeat goes all the way round. */
  lemma RingPath(n: nat, l: nat, path: seq<nat>, last: nat)
    requires 1 <= l <= n && IsWalk(Ring(n, l), path + [last]) && Closed(path + [last]) && Distinct(path)
    ensures |path| == l
  {
    var w := path + [last];
    forall k | 0 <= k < |path|
      ensures w[k] < l && w[k + 1] == Succ(w[k], l)
    {
      assert Edge(Ring(n, l), w[k], w[k + 1]);
    }
    assert forall k :: 0 <= k < |path| ==> path[k] == w[k];
    PathFits(path, l);
    assert w[..|path|] == path;
    var m :| 0 <= m < |path| && path[m] == last;
    RingAt(w, l, |path|);
    RingAt(w, l, m);
  }

  lemma {:induction false} RingAt(w: seq<nat>, l: nat, k: nat)
    requires k < |w| && k <= l && forall i :: 0 <= i < |w| - 1 ==> w[i] < l && w[i + 1] == Succ(w[i], l)
    requires |w| >= 2
    ensures w[k] == if w[0] + k < l then w[0] + k else w[0] + k - l
  {
    if k > 0 {
      RingAt(w, l, k - 1);
    }
  }

  /** Once round from the first node. */
  function Round(l: nat): (p: seq<nat>)
    ensures |p| == l && forall k :: 0 <= k < l ==> p[k] == k
  {
    seq(l, k => k)
  }

  lemma RoundIsWalk(n: nat, l: nat)
    requires 1 <= l <= n
    ensures IsWalk(Ring(n, l), Round(l) + [0]) && Closed(Round(l) + [0]) && Distinct(Round(l))
    ensures InRange(Ring(n, l)) && Cyclic(Ring(n, l))
  {
    var w := Round(l) + [0];
    assert w[..l] == Round(l) && Round(l)[0] == 0;
    forall k | 0 <= k < |w| - 1
      ensures Edge(Ring(n, l), w[k], w[k + 1])
    {
    }
  }

  /** What the buffer holds when the ring has gone round and the repeat did not fit. */
  function Cut(l: nat, size: nat): (text: seq<char>)
    requires l <= NODES && 2 * l <= size
    ensures |text| == size
  {
    seq(size, k requires 0 <= k < size => if k >= 2 * l then NUL else if k % 2 == 0 then Letter(k / 2) else '>')
  }

  lemma CutReports(n: nat, l: nat, size: nat)
    requires 1 <= l <= n <= NODES && 2 * l <= size <= 2 * l + 2
    ensures Reports(Ring(n, l), Cut(l, size), Round(l), 0)
  {
    RoundIsWalk(n, l);
    assert Letters(Cut(l, size), Round(l)) by {
      forall k | 0 <= k < l
        ensures Cut(l, size)[2 * k] == Letter(k) && Cut(l, size)[2 * k + 1] == '>'
      {
        assert 2 * k / 2 == k && (2 * k + 1) % 2 == 1;
      }
    }
  }

  /** The walks without a repeat in a ring are no longer than the ring. */
  lemma RingFits(n: nat, l: nat, size: nat)
    requires 1 <= l <= n && size > 2 * l
    ensures PathsFit(Ring(n, l), size)
  {
    forall p | IsWalk(Ring(n, l), p) && Distinct(p)
      ensures 2 * |p| < size
    {
      if |p| > 1 {
        forall k | 0 <= k < |p|
          ensures p[k] < l
        {
          assert k < |p| - 1 ==> Edge(Ring(n, l), p[k], p[k + 1]);
          assert k > 0 ==> Edge(Ring(n, l), p[k - 1], p[k]);
        }
        PathFits(p, l);
      }
    }
  }

  /**
   Every report on a graph of `n` nodes in a buffer of this size names its repeated
   node, on all graphs whose paths fit, where a stopped search does leave a report.
   */
  ghost predicate AlwaysComplete(n: nat, size: nat) {
    forall g: Graph, text: seq<char>, path: seq<nat>, last: nat ::
      |g| == n && |text| == size && PathsFit(g, size) && Reports(g, text, path, last) ==> Complete(text, path, last)
  }

  /** The longest ring of at most `n` nodes that fits in the buffer. */
  function Longest(n: nat, size: nat): nat
    requires size >= 1
  {
    if size > 2 * n then n else (size - 1) / 2
  }

  /**
   The exact condition a caller can check: reports always name the repeated node if
   and only if the buffer is longer than twice the nodes plus two.
   */
  lemma RoomIsExact(n: nat, size: nat)
    requires 1 <= n <= NODES && 4 <= size
    ensures AlwaysComplete(n, size) <==> size > 2 * n + 2
  {
    hide Reports, Complete, PathsFit;
    if size > 2 * n + 2 {
      forall g: Graph, text: seq<char>, path: seq<nat>, last: nat |
        |g| == n && |text| == size && PathsFit(g, size) && Reports(g, text, path, last)
        ensures Complete(text, path, last)
      {
        ReportFits(g, text, path, last);
        ClosingNeedsRoom(g, text, path, last);
      }
    } else {
      var l := Longest(n, size);
      RingFits(n, l, size);
      CutReports(n, l, size);
      ClosingNeedsRoom(Ring(n, l), Cut(l, size), Round(l), 0);
      assert !Complete(Cut(l, size), Round(l), 0);
    }
  }

  /**
   The search itself on a ring that fits: it always stops with the whole ring, and
   names the repeated node if and only if two more places and one spare follow.
   */
  method SearchRing(n: nat, l: nat, chain: array<char>) returns (r: Result, ghost path: seq<nat>, ghost last: nat)
    requires 1 <= l <= n <= NODES && chain.Length >= 4 && chain.Length > 2 * l
    modifies chain
    ensures r == Dependency && Reports(Ring(n, l), chain[..], path, last) && |path| == l
    ensures Complete(chain[..], path, last) <==> chain.Length > 2 * l + 2
  {
    hide PathsFit;
    RoundIsWalk(n, l);
    RingFits(n, l, chain.Length);
    r, path, last := FindCycle(Ring(n, l), chain);
    RingPath(n, l, path, last);
    ClosingNeedsRoom(Ring(n, l), chain[..], path, last);
  }

  /** So for every number of nodes and every buffer the search itself shows which case it is. */
  method SearchLongest(n: nat, chain: array<char>) returns (r: Result, ghost path: seq<nat>, ghost last: nat)
    requires 1 <= n <= NODES && chain.Length >= 4
    modifies chain
    ensures r == Dependency && Reports(Ring(n, Longest(n, chain.Length)), chain[..], path, last)
    ensures Complete(chain[..], path, last) <==> chain.Length > 2 * n + 2
  {
    r, path, last := SearchRing(n, Longest(n, chain.Length), chain);
  }

  method SearchLoop(chain: array<char>) returns (r: Result, ghost path: seq<nat>, ghost last: nat)
    requires chain.Length == 4
    modifies chain
    ensures r == Dependency && Reports([{0}], chain[..], path, last) && !Complete(chain[..], path, last)
  {
    assert Ring(1, 1) == [{0}];
    r, path, last := SearchRing(1, 1, chain);
  }

  function Line(n: nat): (g: Graph)
    ensures |g| == n && IsLine(g)
  {
    seq(n, i requires 0 <= i < n => if i + 1 < n then {i + 1} else {})
  }

  lemma {:induction false} LineClimbs(n: nat, w: seq<nat>, k: nat)
    requires IsWalk(Line(n), w) && k < |w|
    ensures w[k] == w[0] + k
  {
    if k > 0 {
      LineClimbs(n, w, k - 1);
      assert Edge(Line(n), w[k - 1], w[k]);
    }
  }

  lemma LineIsAcyclic(n: nat)
    ensures InRange(Line(n)) && !Cyclic(Line(n))
  {
    if Cyclic(Line(n)) {
      var w :| IsWalk(Line(n), w) && |w| >= 2 && w[0] == w[|w| - 1];
      LineClimbs(n, w, |w| - 1);
      assert false;
    }
  }

  /**
   The search itself on a line of every length, which has no cycle: it says so if
   and only if the buffer is longer than twice the nodes.
   */
  method SearchLine(n: nat, chain: array<char>) returns (r: Result)
    requires 1 <= n <= NODES && chain.Length >= 4
    modifies chain
    ensures !Cyclic(Line(n)) && (r == Clear <==> chain.Length > 2 * n)
  {
    LineIsAcyclic(n);
    ghost var path, last;
    r, path, last := FindCycle(Line(n), chain);
  }
}
