/** File requests over IPC: what a message asks for, and what a delegated root allows over a whole session. */
module FileRpc {
  import opened Bytes
  import opened Paths
  import opened Namespace
  import opened NsInvariant
  import opened NsRuns
  import opened NsConfine

  const MSG_BYTES := 256

  const OP_OPEN := 10
  const OP_READ := 11
  const OP_WRITE := 12
  const OP_CLOSE := 13
  const OP_SEEK := 14
  const OP_POLL := 15
  const OP_ENUMERATE := 18
  const OP_OPENAT := 19
  const OP_ROOT := 20
  const OP_TRUNCATE := 21
  const OP_UNLINK := 22
  const OP_STAT := 23
  const OP_RMDIR := 24
  const OP_DUP := 25
  const OP_PREAD := 26

  datatype Msg = Msg(op: nat, handle: nat, length: nat, mode: nat, offset: nat, data: seq<byte>)

  predicate UsesHandle(op: nat) {
    op in {OP_READ, OP_WRITE, OP_CLOSE, OP_SEEK, OP_POLL, OP_ENUMERATE, OP_OPENAT, OP_TRUNCATE, OP_UNLINK, OP_RMDIR, OP_STAT, OP_DUP, OP_PREAD}
  }

  predicate MovesData(op: nat) { op in {OP_READ, OP_WRITE, OP_ENUMERATE, OP_PREAD} }

  /** The payload is one terminated string that fills it exactly. */
  predicate Named(m: Msg) {
    && 0 < m.length <= MSG_BYTES && m.length <= |m.data| && m.data[m.length - 1] == 0
    && forall i :: 0 <= i < m.length - 1 ==> m.data[i] != 0
  }

  function Name(m: Msg): Path
    requires Named(m)
  {
    m.data[..m.length - 1]
  }

  /** Refused before the namespace is consulted, a query that changes nothing, or an operation on the sender's handles. */
  datatype Request = Refuse(error: Error) | Query | Act(event: Event)

  function Decode(m: Msg, owner: nat, a: Answer): Request
    requires |m.data| == MSG_BYTES
  {
    if m.handle > U32_MAX && UsesHandle(m.op) then Refuse(Stale)
    else if MovesData(m.op) && m.length > MSG_BYTES then Refuse(Invalid)
    else if m.op == OP_PREAD then (if m.mode != 0 then Refuse(Invalid) else Query)
    else if m.op == OP_DUP then (if m.length != 0 || m.mode != 0 || m.offset != 0 then Refuse(Invalid) else Act(Dups(owner, m.handle)))
    else if m.op == OP_STAT || m.op == OP_ROOT || m.op == OP_POLL || m.op == OP_ENUMERATE then Query
    else if m.op == OP_OPENAT || m.op == OP_UNLINK || m.op == OP_RMDIR then
      (if !Named(m) then Refuse(Invalid)
       else if m.op == OP_RMDIR then Act(Removes(owner, m.handle, Name(m), Dir))
       else if m.op == OP_UNLINK then Act(Removes(owner, m.handle, Name(m), File))
       else Act(OpensAt(owner, m.handle, Name(m), m.mode, a)))
    else if m.op == OP_OPEN then
      (if !Named(m) then Refuse(Invalid)
       else if Name(m) != CONSOLE_PATH || m.mode != 2 then Refuse(Denied)
       else Act(Opens(owner, ROOT, Name(m), m.mode, a)))
    else if m.op == OP_WRITE then Act(Puts(owner, m.handle, m.data[..m.length], a))
    else if m.op == OP_TRUNCATE then Act(Truncates(owner, m.handle, m.offset, a))
    else if m.op == OP_READ then Act(ReadsAt(owner, m.handle, m.length, a))
    else if m.op == OP_CLOSE then Act(Closes(owner, m.handle))
    else if m.op == OP_SEEK then Act(Seeks(owner, m.handle, m.offset))
    else Refuse(Invalid)
  }

  /** The namespace after serving a message. */
  ghost function Served(ns: Ns, owner: nat, m: Msg, a: Answer): Ns
    requires Inv(ns) && |m.data| == MSG_BYTES
  {
    match Decode(m, owner, a)
    case Act(e) => Next(ns, e).0
    case _ => ns
  }

  /** The sender's requests act only on its own handles. */
  lemma DecodeIsClients(m: Msg, owner: nat, a: Answer)
    requires |m.data| == MSG_BYTES
    ensures Decode(m, owner, a).Act? ==> ByClient(Decode(m, owner, a).event, owner)
  {
    hide Named;
  }

  /** The payload spells `name`, with a terminator and nothing behind it. */
  ghost predicate Spells(m: Msg, name: Path) {
    && m.length == |name| + 1 <= 256 == |m.data| && m.data[..|name|] == name && m.data[|name|] == 0
    && forall i :: 0 <= i < |name| ==> name[i] != 0
  }

  lemma SpelledName(m: Msg, name: Path)
    requires |m.data| == MSG_BYTES && Spells(m, name)
    ensures Named(m) && Name(m) == name
  {
    assert forall i :: 0 <= i < |name| ==> m.data[i] == m.data[..|name|][i];
  }

  /** Which change of the namespace follows from each request that takes a name. */
  lemma NamedRequests(ns: Ns, owner: nat, m: Msg, a: Answer, name: Path)
    requires Inv(ns) && Linked(ns) && |m.data| == MSG_BYTES && Spells(m, name) && m.handle <= U32_MAX
    ensures m.op == 19 ==> Served(ns, owner, m, a) == OpenAt(ns, owner, m.handle, name, m.mode, a).0
    ensures m.op == 22 ==> Served(ns, owner, m, a) == Remove(ns, owner, m.handle, name, File).0
    ensures m.op == 24 ==> Served(ns, owner, m, a) == Remove(ns, owner, m.handle, name, Dir).0
    ensures m.op == 10 && name == CONSOLE_PATH && m.mode == 2 ==> Served(ns, owner, m, a) == Open(ns, owner, [47], name, 2, a).0
    ensures m.op == 10 && !(name == CONSOLE_PATH && m.mode == 2) ==> Served(ns, owner, m, a) == ns
  {
    hide Inv, Open, OpenAt, Remove, Named, Name;
    SpelledName(m, name);
  }

  /** Which change of the namespace follows from each request on a handle alone. */
  lemma HandleRequests(ns: Ns, owner: nat, m: Msg, a: Answer)
    requires Inv(ns) && Linked(ns) && AllSane(ns) && |m.data| == MSG_BYTES && m.handle <= U32_MAX
    ensures m.op == 11 && m.length <= 256 ==> Served(ns, owner, m, a) == Read(ns, owner, m.handle, m.length, a).0
    ensures m.op == 12 && m.length <= 256 ==> Served(ns, owner, m, a) == Write(ns, owner, m.handle, m.data[..m.length], a).0
    ensures m.op == 13 ==> Served(ns, owner, m, a) == Close(ns, owner, m.handle).0
    ensures m.op == 14 ==> Served(ns, owner, m, a) == Seek(ns, owner, m.handle, m.offset).0
    ensures m.op == 21 ==> Served(ns, owner, m, a) == Truncate(ns, owner, m.handle, m.offset, a).0
    ensures m.op == 25 && m.length == 0 && m.mode == 0 && m.offset == 0 ==> Served(ns, owner, m, a) == Dup(ns, owner, m.handle).0
  {
    hide Inv, Read, Write, Close, Seek, Truncate, Dup, Named;
  }

  /** Every other request, and every malformed one, changes nothing. */
  lemma OtherRequests(ns: Ns, owner: nat, m: Msg, a: Answer)
    requires Inv(ns) && |m.data| == MSG_BYTES
    requires || m.op !in {10, 11, 12, 13, 14, 19, 21, 22, 24, 25}
             || (m.op in {10, 19, 22, 24} && forall name :: !Spells(m, name))
             || (m.op in {11, 12} && m.length > 256) || (m.op == 25 && (m.length != 0 || m.mode != 0 || m.offset != 0))
             || (m.op != 10 && m.handle > U32_MAX)
    ensures Served(ns, owner, m, a) == ns
  {
    hide Inv, Next;
    if Named(m) {
      assert Spells(m, Name(m));
    }
  }

  // -------------------------------------------------------------- sessions

  /** A request of the client, or anything done by others. */
  datatype Step = Rpc(m: Msg, a: Answer) | Others(e: Event)

  predicate Fair(s: Step, client: nat) {
    match s
    case Rpc(m, _) => |m.data| == MSG_BYTES
    case Others(e) => ByOthers(e, client)
  }

  ghost function After(ns: Ns, s: Step, client: nat): Ns
    requires Inv(ns) && Fair(s, client)
  {
    match s
    case Rpc(m, a) => Served(ns, client, m, a)
    case Others(e) => Next(ns, e).0
  }

  ghost predicate IsSession(states: seq<Ns>, steps: seq<Step>, client: nat) {
    && |states| == |steps| + 1
    && forall k :: 0 <= k < |steps| ==> Fair(steps[k], client) && (Inv(states[k]) ==> states[k + 1] == After(states[k], steps[k], client))
  }

  /** The session invariant: counts, the console, and the client below its root. */
  ghost predicate Held(ns: Ns, client: nat, root: Path) {
    Inv(ns) && HasConsole(ns) && Confined(ns, client, root)
  }

  lemma HeldInv(ns: Ns, client: nat, root: Path)
    requires Held(ns, client, root)
    ensures Inv(ns)
  {
  }

  lemma StepHolds(ns: Ns, s: Step, client: nat, root: Path)
    requires Held(ns, client, root) && Fair(s, client) && PathOk(root)
    ensures Held(After(ns, s, client), client, root)
    ensures s.Rpc? ==> Harmless(ns, After(ns, s, client))
  {
    hide Inv, HasConsole, Confined, PathOk, Harmless, Next, ByClient, ByOthers, Decode;
    match s
    case Rpc(m, a) =>
      DecodeIsClients(m, client, a);
      match Decode(m, client, a) {
        case Act(e) =>
          NextKeeps(ns, e);
          ConsoleStays(ns, e);
          StepConfined(ns, e, client, root);
          ClientHarmless(ns, e, client, root);
        case _ => HarmlessRefl(ns);
      }
    case Others(e) =>
      NextKeeps(ns, e);
      ConsoleStays(ns, e);
      StepConfined(ns, e, client, root);
  }

  /**
   Over every session, whatever the client asks and whatever others do in between:
   all its handles name the console or nodes at or below its root, and none of its
   requests makes, removes, renames, retypes or writes a node.
   */
  lemma {:induction false} SessionConfined(states: seq<Ns>, steps: seq<Step>, client: nat, root: Path, k: nat)
    requires IsSession(states, steps, client) && k < |states| && PathOk(root) && Held(states[0], client, root)
    ensures Held(states[k], client, root)
    ensures k < |steps| && steps[k].Rpc? ==> Harmless(states[k], states[k + 1])
  {
    hide Held, PathOk, Harmless, After, Inv, Fair;
    if k > 0 {
      SessionConfined(states, steps, client, root, k - 1);
      HeldInv(states[k - 1], client, root);
      StepHolds(states[k - 1], steps[k - 1], client, root);
    }
    if k < |steps| {
      HeldInv(states[k], client, root);
      StepHolds(states[k], steps[k], client, root);
    }
  }
}
