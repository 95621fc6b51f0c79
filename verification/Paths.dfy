/** Canonical absolute paths, and what lies at or below a directory. */
module Paths {
  import opened Bytes
  import Utf8

  const SLASH: byte := 47
  const DOT: byte := 46
  const PATH_MAX := 95

  type Path = seq<byte>

  const ROOT: Path := [SLASH]

  /** Where the component starting at `i` ends. */
  function EndOf(p: Path, i: nat): (e: nat)
    requires i <= |p|
    ensures i <= e <= |p| && (e < |p| ==> p[e] == SLASH)
    ensures forall k :: i <= k < e ==> p[k] != SLASH
    decreases |p| - i
  {
    if i == |p| || p[i] == SLASH then i else EndOf(p, i + 1)
  }

  predicate Component(c: Path) { c != [] && c != [DOT] && c != [DOT, DOT] }

  /** The component after the slash at `i` is a proper name. */
  predicate NamedAt(p: Path, i: nat)
    requires i < |p|
  {
    Component(p[i + 1..EndOf(p, i + 1)])
  }

  /** Absolute, bounded, printable UTF-8, and the root or nothing but proper components. */
  predicate PathOk(p: Path) {
    && 0 < |p| <= PATH_MAX && p[0] == SLASH && Utf8.Valid(p, 32)
    && (|p| == 1 || forall i :: 0 <= i < |p| && p[i] == SLASH ==> NamedAt(p, i))
  }

  method FindEnd(p: Path, b: nat) returns (e: nat)
    requires b <= |p|
    ensures e == EndOf(p, b)
  {
    e := b;
    while e < |p| && p[e] != SLASH
      invariant b <= e <= |p| && EndOf(p, b) == EndOf(p, e)
      decreases |p| - e
    {
      e := e + 1;
    }
  }

  method CheckPath(p: Path) returns (ok: bool)
    ensures ok == PathOk(p)
  {
    hide Utf8.Valid, EndOf, NamedAt;
    if p == [] || p[0] != SLASH || |p| > PATH_MAX || (|p| > 1 && p[|p| - 1] == SLASH) {
      if |p| > 1 && p[|p| - 1] == SLASH {
        EmptyEnd(p);
      }
      return false;
    }
    ok := Utf8.Check(p, 32);
    if !ok {
      return;
    }
    var s := 0;
    while s < |p|
      invariant 0 <= s <= |p| && (s == |p| || p[s] == SLASH)
      invariant |p| > 1 ==> forall i :: 0 <= i < s && p[i] == SLASH ==> NamedAt(p, i)
      decreases |p| - s
    {
      var b := s + 1;
      var e := FindEnd(p, b);
      var n := e - b;
      NameTest(p, s);
      if (n == 0 && e < |p|) || (n == 1 && p[b] == DOT) || (n == 2 && p[b] == DOT && p[b + 1] == DOT) {
        return false;
      }
      s := e;
    }
  }

  lemma EmptyEnd(p: Path)
    requires |p| > 1 && p[|p| - 1] == SLASH
    ensures !NamedAt(p, |p| - 1)
  {
    assert p[|p|..EndOf(p, |p|)] == [];
  }

  lemma NameTest(p: Path, s: nat)
    requires s < |p| && p[s] == SLASH
    ensures var b := s + 1;
            var n := EndOf(p, b) - b;
            NamedAt(p, s) <==> !(n == 0 || (n == 1 && p[b] == DOT) || (n == 2 && p[b] == DOT && p[b + 1] == DOT))
  {
    hide EndOf;
    var b := s + 1;
    var e := EndOf(p, b);
    assert e == b ==> p[b..e] == [];
    assert e == b + 1 ==> p[b..e] == [p[b]];
    assert e == b + 2 ==> p[b..e] == [p[b], p[b + 1]];
  }

  /** The root itself, or a path with the root as a leading directory. */
  predicate AtOrBelow(root: Path, p: Path) {
    root == ROOT || (root <= p && (|p| == |root| || p[|root|] == SLASH))
  }

  lemma BelowTrans(a: Path, b: Path, c: Path)
    requires AtOrBelow(a, b) && AtOrBelow(b, c) && PathOk(a)
    ensures AtOrBelow(a, c)
  {
    hide Utf8.Valid, EndOf;
    if b == ROOT {
      assert a == ROOT;
    }
  }

  /** A name resolved against a directory. */
  datatype Resolved = Refused | Resolved(path: Path)

  function Join(base: Path, name: Path): Path {
    base + (if |base| == 1 then [] else [SLASH]) + name
  }

  function Relative(base: Path, name: Path): (r: Resolved)
    ensures r.Resolved? ==> PathOk(r.path) && (PathOk(base) ==> AtOrBelow(base, r.path))
  {
    if name == [] || name[0] == SLASH || |name| > PATH_MAX || |Join(base, name)| > PATH_MAX || !PathOk(Join(base, name)) then Refused
    else Resolved(Join(base, name))
  }
}
