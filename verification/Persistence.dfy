/**
 The A/B update policy on top of the transaction store: which tables its
 commits can produce, and what therefore holds of every table that any run of
 the store, with any crash, can bring back.
 */
module Persistence {
  import opened Bytes
  import opened TxnImage
  import opened TxnTable
  import TD = TxnDisk
  import TC = TxnCrash
  import TR = TxnRuns
  import U = Update

  /** What package verification yields: the signed application name and version. */
  datatype App = App(id: U.AppId, version: U.Version)
  type Verify = seq<byte> -> Option<App>

  /** "/boot/current", "/boot/revoked", "/notes/user", "/slots/a.sfk", "/slots/b.sfk" */
  const BOOT: seq<byte> := [47, 98, 111, 111, 116, 47, 99, 117, 114, 114, 101, 110, 116]
  const REVOKED: seq<byte> := [47, 98, 111, 111, 116, 47, 114, 101, 118, 111, 107, 101, 100]
  const NOTES: seq<byte> := [47, 110, 111, 116, 101, 115, 47, 117, 115, 101, 114]
  const PATH_A: seq<byte> := [47, 115, 108, 111, 116, 115, 47, 97, 46, 115, 102, 107]
  const PATH_B: seq<byte> := [47, 115, 108, 111, 116, 115, 47, 98, 46, 115, 102, 107]
  const NAMES := [BOOT, REVOKED, NOTES, PATH_A, PATH_B]

  function SlotPath(slot: byte): seq<byte> { if slot == U.SLOT_A then PATH_A else PATH_B }

  // ------------------------------------------------------------- the policy

  /** The one-byte selector of the first format names a slot outright. */
  function ImportSelector(sha: Hash, auth: Verify, files: seq<File>, slot: byte): Option<U.Record> {
    match Lookup(files, SlotPath(slot))
    case None => None
    case Some(content) =>
      match auth(content)
      case None => None
      case Some(app) =>
        var s := U.BLANK.(good := slot, goodHash := sha(content), appId := app.id);
        if U.Valid(s) then Some(s) else None
  }

  function StateRead(sha: Hash, auth: Verify, files: seq<File>): Option<U.Record> {
    match Lookup(files, BOOT)
    case None => Some(U.BLANK)
    case Some(b) =>
      if |b| == 1 && U.IsSlot(b[0]) then ImportSelector(sha, auth, files, b[0]) else U.Decode(b)
  }

  /** The version of a slot whose bytes match the digest and name recorded for it. */
  function SlotVersion(sha: Hash, auth: Verify, files: seq<File>, slot: byte, hash: Digest, id: U.AppId): Option<U.Version> {
    match Lookup(files, SlotPath(slot))
    case None => None
    case Some(content) =>
      if sha(content) != hash then None
      else
        match auth(content)
        case Some(app) => if app.id == id then Some(app.version) else None
        case None => None
  }

  datatype Op =
    | Install(package: seq<byte>, revoked: bool)
    | Begin
    | Finish(success: bool)
    | Recover
    | WriteNotes(data: seq<byte>)
    | Revoke(keys: seq<byte>)

  function PlanInstall(sha: Hash, auth: Verify, files: seq<File>, package: seq<byte>, revoked: bool): Option<seq<Update>> {
    match (StateRead(sha, auth, files), auth(package))
    case (Some(s), Some(app)) =>
      if s.phase != U.STABLE || revoked || |package| > FILE_BYTES then None
      else if s.good != 0 && !MayReplace(sha, auth, files, s, app, sha(package)) then None
      else
        (match U.Stage(s, app.id, sha(package))
         case None => None
         case Some(t) => Some([Update(SlotPath(t.candidate), package), Update(BOOT, U.Encode(t))]))
    case (_, _) => None
  }

  /** A confirmed application is replaced only by a strictly newer version of itself. */
  predicate MayReplace(sha: Hash, auth: Verify, files: seq<File>, s: U.Record, app: App, hash: Digest) {
    match SlotVersion(sha, auth, files, s.good, s.goodHash, s.appId)
    case None => false
    case Some(floor) => s.appId == app.id && U.Judge(floor, s.goodHash, app.version, hash) == U.Upgrade
  }

  function Rewrite(s: Option<U.Record>): Option<seq<Update>> {
    match s
    case None => None
    case Some(t) => Some([Update(BOOT, U.Encode(t))])
  }

  /** The updates an operation commits, if it commits anything. */
  function Commitment(sha: Hash, auth: Verify, files: seq<File>, op: Op): Option<seq<Update>> {
    match op
    case Install(package, revoked) => PlanInstall(sha, auth, files, package, revoked)
    case WriteNotes(data) => if |data| <= FILE_BYTES then Some([Update(NOTES, data)]) else None
    case Revoke(keys) => if |keys| <= FILE_BYTES then Some([Update(REVOKED, keys)]) else None
    case Begin =>
      (match StateRead(sha, auth, files)
       case None => None
       case Some(s) => if s.phase == U.STABLE then None else Rewrite(U.BeginTrial(s)))
    case Finish(success) =>
      (match StateRead(sha, auth, files)
       case None => None
       case Some(s) => Rewrite(U.Finish(s, success)))
    case Recover =>
      (match StateRead(sha, auth, files)
       case None => None
       case Some(s) => if s.phase == U.TRYING then Rewrite(U.Finish(s, false)) else None)
  }

  ghost predicate PolicyCommit(sha: Hash, auth: Verify, files: seq<File>, next: seq<File>) {
    exists op: Op :: CommitOf(sha, auth, files, op, next)
  }

  ghost predicate CommitOf(sha: Hash, auth: Verify, files: seq<File>, op: Op, next: seq<File>) {
    var u := Commitment(sha, auth, files, op);
    u.Some? && Plan(files, u.value, |u.value|) == Planned(next)
  }

  // -------------------------------------------------------------- invariant

  ghost predicate Tidy(files: seq<File>) {
    Wf(files) && forall k :: 0 <= k < FILES && files[k] != EMPTY ==> files[k].path in NAMES
  }

  /** Digests, names and versions recorded for both slots are those of their contents. */
  ghost predicate Sound(sha: Hash, auth: Verify, files: seq<File>, s: U.Record) {
    && U.Valid(s)
    && (s.good != 0 ==> SlotVersion(sha, auth, files, s.good, s.goodHash, s.appId).Some?)
    && (s.candidate != 0 ==> SlotVersion(sha, auth, files, s.candidate, s.candidateHash, s.appId).Some?)
    && (s.good != 0 && s.candidate != 0 ==>
          U.Compare(SlotVersion(sha, auth, files, s.candidate, s.candidateHash, s.appId).value,
                    SlotVersion(sha, auth, files, s.good, s.goodHash, s.appId).value) > 0)
  }

  ghost predicate PolicyInv(sha: Hash, auth: Verify, files: seq<File>) {
    && Tidy(files)
    && StateRead(sha, auth, files).Some?
    && Sound(sha, auth, files, StateRead(sha, auth, files).value)
  }

  /** The version of the confirmed package, if one is confirmed. */
  function Floor(sha: Hash, auth: Verify, files: seq<File>): Option<U.Version> {
    match StateRead(sha, auth, files)
    case None => None
    case Some(s) => if s.good == 0 then None else SlotVersion(sha, auth, files, s.good, s.goodHash, s.appId)
  }

  predicate NoDowngrade(sha: Hash, auth: Verify, a: seq<File>, b: seq<File>) {
    match (Floor(sha, auth, a), Floor(sha, auth, b))
    case (None, _) => true
    case (Some(_), None) => false
    case (Some(x), Some(y)) => U.Le(x, y)
  }

  lemma NamesLegal()
    ensures |NAMES| == 5 && forall p :: p in NAMES ==> PathOk(p)
    ensures BOOT != REVOKED && BOOT != NOTES && BOOT != PATH_A && BOOT != PATH_B
    ensures REVOKED != NOTES && REVOKED != PATH_A && REVOKED != PATH_B
    ensures NOTES != PATH_A && NOTES != PATH_B && PATH_A != PATH_B
  {
    assert BOOT[1] != PATH_A[1] && BOOT[6] != REVOKED[6] && BOOT[1] != NOTES[1] && PATH_A[7] != PATH_B[7];
    LegalName(BOOT, 5);
    LegalName(REVOKED, 5);
    LegalName(NOTES, 6);
    LegalName(PATH_A, 6);
    LegalName(PATH_B, 6);
  }

  /** Two components, neither beginning with a dot. */
  lemma LegalName(p: seq<byte>, cut: nat)
    requires 3 <= |p| < 64 && 2 <= cut < |p| - 1 && p[0] == SLASH && p[cut] == SLASH && p[1] != DOT && p[cut + 1] != DOT
    requires forall i :: 1 <= i < |p| ==> 33 <= p[i] <= 126 && p[i] != 92 && (p[i] == SLASH ==> i == cut)
    ensures PathOk(p)
  {
    forall i, j | 1 <= i <= j <= |p| && Component(p, i, j)
      ensures !DotName(p[i..j])
    {
      assert i == 1 || i == cut + 1;
      assert i < j ==> p[i..j][0] == p[i];
    }
  }

  /** A newly formatted volume, with no files, satisfies the invariant. */
  lemma FreshVolume(sha: Hash, auth: Verify)
    ensures PolicyInv(sha, auth, seq(FILES, _ => EMPTY))
  {
    var files := seq(FILES, _ => EMPTY);
    assert Lookup(files, BOOT) == None by { NothingStored(files, BOOT); }
  }

  lemma {:induction false} NothingStored(files: seq<File>, p: seq<byte>)
    requires forall k :: 0 <= k < |files| ==> files[k] == EMPTY
    ensures Lookup(files, p) == None
  {
    if files != [] {
      NothingStored(files[1..], p);
    }
  }

  // ------------------------------------------------------ one commit at a time

  ghost predicate LegalUpdates(u: seq<Update>) {
    && 1 <= |u| <= 2
    && (forall n :: 0 <= n < |u| ==> u[n].path in NAMES && |u[n].data| <= FILE_BYTES)
    && (|u| == 2 ==> u[0].path != u[1].path)
  }

  /** The five names always fit, so the policy's commits are never refused for space. */
  lemma AlwaysRoom(files: seq<File>, u: seq<Update>)
    requires Tidy(files) && LegalUpdates(u)
    ensures Plan(files, u, |u|).Planned? && Tidy(Plan(files, u, |u|).files)
    ensures forall p :: Lookup(Plan(files, u, |u|).files, p) == Overlay(files, u, |u|, p)
  {
    hide PathOk, Plan, Lookup, Wf;
    NamesLegal();
    assert forall k :: 0 <= k < |u| ==> Fresh(u, k);
    PlanHasRoom(files, u, |u|, NAMES);
    PlanKeepsWf(files, u, |u|);
    forall p
      ensures Lookup(Plan(files, u, |u|).files, p) == Overlay(files, u, |u|, p)
    {
      PlanIsMapUpdate(files, u, |u|, p);
    }
  }

  lemma CommitmentLegal(sha: Hash, auth: Verify, files: seq<File>, op: Op)
    ensures Commitment(sha, auth, files, op).Some? ==> LegalUpdates(Commitment(sha, auth, files, op).value)
  {
    hide PathOk, StateRead, MayReplace, U.Stage, U.Finish, U.BeginTrial, U.Encode;
    NamesLegal();
  }

  /** Soundness reads only the two slots. */
  lemma SoundFrame(sha: Hash, auth: Verify, files: seq<File>, next: seq<File>, s: U.Record)
    requires Sound(sha, auth, files, s)
    requires Lookup(next, PATH_A) == Lookup(files, PATH_A) && Lookup(next, PATH_B) == Lookup(files, PATH_B)
    ensures Sound(sha, auth, next, s)
  {
    hide U.Valid, U.Compare, Lookup;
  }

  /** Rewriting the boot record with a sound one keeps the invariant. */
  lemma RewriteKeeps(sha: Hash, auth: Verify, files: seq<File>, t: U.Record)
    requires Tidy(files) && Sound(sha, auth, files, t)
    ensures var u := [Update(BOOT, U.Encode(t))];
            && Plan(files, u, 1).Planned?
            && PolicyInv(sha, auth, Plan(files, u, 1).files)
            && StateRead(sha, auth, Plan(files, u, 1).files) == Some(t)
            && Lookup(Plan(files, u, 1).files, PATH_A) == Lookup(files, PATH_A)
            && Lookup(Plan(files, u, 1).files, PATH_B) == Lookup(files, PATH_B)
  {
    hide PathOk, Plan, Lookup, U.Valid, U.Encode, U.Decode, Tidy, SlotVersion;
    var u := [Update(BOOT, U.Encode(t))];
    NamesLegal();
    AlwaysRoom(files, u);
    var next := Plan(files, u, 1).files;
    OverlayOne(files, u[0], BOOT);
    OverlayOne(files, u[0], PATH_A);
    OverlayOne(files, u[0], PATH_B);
    U.DecodeEncode(t);
    SoundFrame(sha, auth, files, next, t);
  }

  lemma OverlayOne(files: seq<File>, u: Update, p: seq<byte>)
    ensures Overlay(files, [u], 1, p) == if u.path == p then Some(u.data) else Lookup(files, p)
  {
    hide Lookup;
    assert Overlay(files, [u], 0, p) == Lookup(files, p);
  }

  lemma OverlayTwo(files: seq<File>, u: Update, v: Update, p: seq<byte>)
    ensures Overlay(files, [u, v], 2, p) ==
            if v.path == p then Some(v.data) else if u.path == p then Some(u.data) else Lookup(files, p)
  {
    hide Lookup;
    assert Overlay(files, [u, v], 0, p) == Lookup(files, p);
    assert Overlay(files, [u, v], 1, p) == if u.path == p then Some(u.data) else Lookup(files, p);
  }

  /** Confirming makes the candidate's package the confirmed one; anything else keeps it. */
  lemma FinishSound(sha: Hash, auth: Verify, files: seq<File>, s: U.Record, success: bool)
    requires Sound(sha, auth, files, s) && U.Finish(s, success).Some?
    ensures Sound(sha, auth, files, U.Finish(s, success).value)
    ensures var t := U.Finish(s, success).value;
            if success then t.good == s.candidate && t.goodHash == s.candidateHash && t.appId == s.appId
            else t.good == s.good && t.goodHash == s.goodHash && (s.good != 0 ==> t.appId == s.appId)
  {
    hide SlotVersion, U.Compare, U.Identity;
    U.TransitionsStayValid(s, s.appId, s.goodHash, success);
  }

  lemma InstallKeeps(sha: Hash, auth: Verify, files: seq<File>, package: seq<byte>, revoked: bool)
    requires PolicyInv(sha, auth, files) && PlanInstall(sha, auth, files, package, revoked).Some?
    ensures var u := PlanInstall(sha, auth, files, package, revoked).value;
            var s := StateRead(sha, auth, files).value;
            && Plan(files, u, 2).Planned?
            && PolicyInv(sha, auth, Plan(files, u, 2).files)
            && StateRead(sha, auth, Plan(files, u, 2).files).value.good == s.good
            && StateRead(sha, auth, Plan(files, u, 2).files).value.goodHash == s.goodHash
            && (s.good != 0 ==>
                  && Lookup(Plan(files, u, 2).files, SlotPath(s.good)) == Lookup(files, SlotPath(s.good))
                  && StateRead(sha, auth, Plan(files, u, 2).files).value.appId == s.appId)
  {
    hide PathOk, Plan, Lookup, U.Valid, U.Encode, U.Decode, Tidy, U.Identity, U.Compare, MayReplace, Sound, SlotVersion;
    var s, app := StateRead(sha, auth, files).value, auth(package).value;
    var t := U.Stage(s, app.id, sha(package)).value;
    var v, w := Update(SlotPath(t.candidate), package), Update(BOOT, U.Encode(t));
    CommitmentLegal(sha, auth, files, Op.Install(package, revoked));
    AlwaysRoom(files, [v, w]);
    var next := Plan(files, [v, w], 2).files;
    NamesLegal();
    OverlayTwo(files, v, w, BOOT);
    OverlayTwo(files, v, w, PATH_A);
    OverlayTwo(files, v, w, PATH_B);
    U.DecodeEncode(t);
    U.TransitionsStayValid(s, app.id, sha(package), false);
    InstallSound(sha, auth, files, next, s, package);
  }

  lemma InstallSound(sha: Hash, auth: Verify, files: seq<File>, next: seq<File>, s: U.Record, package: seq<byte>)
    requires Sound(sha, auth, files, s) && auth(package).Some?
    requires U.Stage(s, auth(package).value.id, sha(package)).Some?
    requires s.good != 0 ==> MayReplace(sha, auth, files, s, auth(package).value, sha(package))
    requires var t := U.Stage(s, auth(package).value.id, sha(package)).value;
             && Lookup(next, SlotPath(t.candidate)) == Some(package)
             && (s.good != 0 ==> Lookup(next, SlotPath(s.good)) == Lookup(files, SlotPath(s.good)))
    ensures Sound(sha, auth, next, U.Stage(s, auth(package).value.id, sha(package)).value)
  {
    hide U.Identity, Lookup;
    U.TransitionsStayValid(s, auth(package).value.id, sha(package), false);
  }

  lemma OtherDataKeeps(sha: Hash, auth: Verify, files: seq<File>, u: Update)
    requires PolicyInv(sha, auth, files) && (u.path == NOTES || u.path == REVOKED) && |u.data| <= FILE_BYTES
    ensures Plan(files, [u], 1).Planned? && PolicyInv(sha, auth, Plan(files, [u], 1).files)
    ensures StateRead(sha, auth, Plan(files, [u], 1).files) == StateRead(sha, auth, files)
    ensures Lookup(Plan(files, [u], 1).files, PATH_A) == Lookup(files, PATH_A)
    ensures Lookup(Plan(files, [u], 1).files, PATH_B) == Lookup(files, PATH_B)
  {
    hide PathOk, Plan, Lookup, U.Valid, U.Decode, Tidy, Sound;
    NamesLegal();
    AlwaysRoom(files, [u]);
    var next := Plan(files, [u], 1).files;
    OverlayOne(files, u, BOOT);
    OverlayOne(files, u, PATH_A);
    OverlayOne(files, u, PATH_B);
    SoundFrame(sha, auth, files, next, StateRead(sha, auth, files).value);
  }

  /** The bytes of the confirmed package. */
  function Confirmed(sha: Hash, auth: Verify, files: seq<File>): Option<seq<byte>> {
    match StateRead(sha, auth, files)
    case None => None
    case Some(s) => if s.good == 0 then None else Lookup(files, SlotPath(s.good))
  }

  /** Same confirmed slot, digest and name over the same slot contents. */
  ghost predicate SameGood(sha: Hash, auth: Verify, files: seq<File>, next: seq<File>) {
    && StateRead(sha, auth, files).Some? && StateRead(sha, auth, next).Some?
    && var s, t := StateRead(sha, auth, files).value, StateRead(sha, auth, next).value;
       && t.good == s.good && t.goodHash == s.goodHash
       && (s.good != 0 ==> t.appId == s.appId && Lookup(next, SlotPath(s.good)) == Lookup(files, SlotPath(s.good)))
  }

  lemma SameGoodFloor(sha: Hash, auth: Verify, files: seq<File>, next: seq<File>)
    requires SameGood(sha, auth, files, next)
    ensures Confirmed(sha, auth, next) == Confirmed(sha, auth, files)
    ensures Floor(sha, auth, next) == Floor(sha, auth, files)
    ensures NoDowngrade(sha, auth, files, next)
  {
    hide StateRead, Lookup;
  }

  lemma QuietOpKeeps(sha: Hash, auth: Verify, files: seq<File>, op: Op, next: seq<File>)
    requires PolicyInv(sha, auth, files) && CommitOf(sha, auth, files, op, next)
    requires op.Install? || op.WriteNotes? || op.Revoke?
    ensures PolicyInv(sha, auth, next) && SameGood(sha, auth, files, next)
  {
    hide StateRead, Plan, Lookup, Tidy, Sound;
    match op
    case Install(package, revoked) =>
      InstallSize(sha, auth, files, package, revoked);
      InstallKeeps(sha, auth, files, package, revoked);
    case WriteNotes(data) => OtherDataKeeps(sha, auth, files, Update(NOTES, data));
    case Revoke(keys) => OtherDataKeeps(sha, auth, files, Update(REVOKED, keys));
    case Begin =>
    case Finish(_) =>
    case Recover =>
  }

  lemma InstallSize(sha: Hash, auth: Verify, files: seq<File>, package: seq<byte>, revoked: bool)
    ensures PlanInstall(sha, auth, files, package, revoked).Some? ==> |PlanInstall(sha, auth, files, package, revoked).value| == 2
  {
  }

  ghost predicate VersionsFit(auth: Verify) {
    forall b :: auth(b).Some? ==> U.Fits(auth(b).value.version)
  }

  /** A package may be staged over `files`: over a confirmed one only a larger version of the same application. */
  ghost predicate MayStage(sha: Hash, auth: Verify, files: seq<File>, package: seq<byte>, revoked: bool)
    requires PolicyInv(sha, auth, files)
  {
    var s := StateRead(sha, auth, files).value;
    && s.phase == 0 && auth(package).Some? && !revoked && |package| <= 16384
    && U.Identity(auth(package).value.id) && !AllZero(sha(package))
    && (s.good != 0 ==>
          && auth(package).value.id == s.appId && Floor(sha, auth, files).Some?
          && U.Number(auth(package).value.version) > U.Number(Floor(sha, auth, files).value))
  }

  /** Install commits exactly the packages that may be staged. */
  lemma InstallExact(sha: Hash, auth: Verify, files: seq<File>, package: seq<byte>, revoked: bool)
    requires PolicyInv(sha, auth, files) && VersionsFit(auth)
    ensures Commitment(sha, auth, files, Install(package, revoked)).Some? <==> MayStage(sha, auth, files, package, revoked)
  {
    hide StateRead, Tidy, U.Identity, U.Compare, U.Number, Lookup;
    var s := StateRead(sha, auth, files).value;
    if s.good != 0 && auth(package).Some? {
      var floor := SlotVersion(sha, auth, files, s.good, s.goodHash, s.appId).value;
      assert U.Fits(floor) by { SlotFits(sha, auth, files, s); }
      U.CompareIsNumeric(auth(package).value.version, floor);
    }
  }

  lemma SlotFits(sha: Hash, auth: Verify, files: seq<File>, s: U.Record)
    requires VersionsFit(auth) && SlotVersion(sha, auth, files, s.good, s.goodHash, s.appId).Some?
    ensures U.Fits(SlotVersion(sha, auth, files, s.good, s.goodHash, s.appId).value)
  {
    hide Lookup;
  }

  /** What an install leaves: the package in the slot that is not confirmed, waiting for its trial. */
  lemma InstallStages(sha: Hash, auth: Verify, files: seq<File>, package: seq<byte>, revoked: bool, next: seq<File>)
    requires PolicyInv(sha, auth, files) && CommitOf(sha, auth, files, Install(package, revoked), next)
    ensures var s, t := StateRead(sha, auth, files).value, StateRead(sha, auth, next);
            && t == Some(U.Record(1, s.good, if s.good == 97 then 98 else 97, s.goodHash, sha(package), auth(package).value.id))
            && Lookup(next, if s.good == 97 then PATH_B else PATH_A) == Some(package)
            && Lookup(next, if s.good == 97 then PATH_A else PATH_B) == Lookup(files, if s.good == 97 then PATH_A else PATH_B)
  {
    hide PathOk, Plan, Lookup, U.Valid, U.Encode, U.Decode, Tidy, U.Identity, U.Compare, MayReplace, Sound, SlotVersion;
    var s, app := StateRead(sha, auth, files).value, auth(package).value;
    var t := U.Stage(s, app.id, sha(package)).value;
    var v, w := Update(SlotPath(t.candidate), package), Update(BOOT, U.Encode(t));
    CommitmentLegal(sha, auth, files, Install(package, revoked));
    AlwaysRoom(files, [v, w]);
    NamesLegal();
    OverlayTwo(files, v, w, BOOT);
    OverlayTwo(files, v, w, PATH_A);
    OverlayTwo(files, v, w, PATH_B);
    U.TransitionsStayValid(s, app.id, sha(package), false);
    U.DecodeEncode(t);
  }

  /** Which trial operations commit: a trial begins once, from a staged package, and ends once. */
  lemma TrialExact(sha: Hash, auth: Verify, files: seq<File>, success: bool)
    requires PolicyInv(sha, auth, files)
    ensures var s := StateRead(sha, auth, files).value;
            && (Commitment(sha, auth, files, Begin).Some? <==> s.phase == 1)
            && (Commitment(sha, auth, files, Finish(success)).Some? <==> s.phase == 2)
            && (Commitment(sha, auth, files, Recover).Some? <==> s.phase == 2)
  {
    hide StateRead, Tidy, U.Identity, U.Encode, SlotVersion, U.Compare;
  }

  /** What each trial operation makes of the record; none touches a slot. */
  lemma TrialEffect(sha: Hash, auth: Verify, files: seq<File>, op: Op, next: seq<File>)
    requires PolicyInv(sha, auth, files) && CommitOf(sha, auth, files, op, next) && (op.Begin? || op.Finish? || op.Recover?)
    ensures Lookup(next, PATH_A) == Lookup(files, PATH_A) && Lookup(next, PATH_B) == Lookup(files, PATH_B)
    ensures var s, t := StateRead(sha, auth, files).value, StateRead(sha, auth, next);
            && (op.Begin? ==> t == Some(s.(phase := 2)))
            && (op == Finish(true) ==> t == Some(U.Record(0, s.candidate, 0, s.candidateHash, Zeros(32), s.appId)))
            && (op == Finish(false) || op == Recover ==>
                  t == Some(U.Record(0, s.good, 0, s.goodHash, Zeros(32), if s.good == 0 then Zeros(64) else s.appId)))
  {
    hide StateRead, Plan, Lookup, Tidy, SlotVersion, U.Identity, U.Compare;
    var s := StateRead(sha, auth, files).value;
    U.TransitionsStayValid(s, s.appId, s.goodHash, op == Finish(true));
    if op.Begin? {
      RewriteKeeps(sha, auth, files, U.BeginTrial(s).value);
    } else {
      FinishSound(sha, auth, files, s, op == Finish(true));
      RewriteKeeps(sha, auth, files, U.Finish(s, op == Finish(true)).value);
    }
  }

  /** The one-byte selector of the first format confirms the authenticated package of the slot it names. */
  lemma SelectorConfirms(sha: Hash, auth: Verify, files: seq<File>, slot: byte, package: seq<byte>)
    requires (slot == 97 && Lookup(files, PATH_A) == Some(package)) || (slot == 98 && Lookup(files, PATH_B) == Some(package))
    requires Lookup(files, BOOT) == Some([slot]) && auth(package).Some?
    requires U.Identity(auth(package).value.id) && !AllZero(sha(package))
    ensures StateRead(sha, auth, files) == Some(U.Record(0, slot, 0, sha(package), Zeros(32), auth(package).value.id))
    ensures Confirmed(sha, auth, files) == Some(package)
  {
    hide Lookup, U.Identity;
  }

  lemma BeginKeeps(sha: Hash, auth: Verify, files: seq<File>, next: seq<File>)
    requires PolicyInv(sha, auth, files) && CommitOf(sha, auth, files, Begin, next)
    ensures PolicyInv(sha, auth, next) && SameGood(sha, auth, files, next)
    ensures StateRead(sha, auth, next).value.phase == U.TRYING
  {
    hide StateRead, Plan, Lookup, Tidy, SlotVersion, U.Identity, U.Compare;
    var s := StateRead(sha, auth, files).value;
    U.TransitionsStayValid(s, s.appId, s.goodHash, false);
    RewriteKeeps(sha, auth, files, U.BeginTrial(s).value);
  }

  lemma FinishKeeps(sha: Hash, auth: Verify, files: seq<File>, op: Op, next: seq<File>)
    requires PolicyInv(sha, auth, files) && CommitOf(sha, auth, files, op, next) && (op.Finish? || op.Recover?)
    ensures PolicyInv(sha, auth, next) && StateRead(sha, auth, next).value.phase == U.STABLE
    ensures NoDowngrade(sha, auth, files, next)
    ensures op != Finish(true) ==> SameGood(sha, auth, files, next)
    ensures op == Finish(true) ==>
              var s := StateRead(sha, auth, files).value;
              Confirmed(sha, auth, next) == Lookup(files, SlotPath(s.candidate))
  {
    hide StateRead, Plan, Lookup, Tidy, SlotVersion, U.Identity, U.Compare;
    var s := StateRead(sha, auth, files).value;
    var success := op == Finish(true);
    FinishSound(sha, auth, files, s, success);
    var t := U.Finish(s, success).value;
    RewriteKeeps(sha, auth, files, t);
    assert StateRead(sha, auth, next) == Some(t);
    if success {
      SlotVersionFrame(sha, auth, files, next, s.candidate, s.candidateHash, s.appId);
      Raised(sha, auth, files, next, s, t);
    } else {
      assert SameGood(sha, auth, files, next);
      SameGoodFloor(sha, auth, files, next);
    }
  }

  lemma SlotVersionFrame(sha: Hash, auth: Verify, files: seq<File>, next: seq<File>, slot: byte, hash: Digest, id: U.AppId)
    requires Lookup(next, PATH_A) == Lookup(files, PATH_A) && Lookup(next, PATH_B) == Lookup(files, PATH_B)
    ensures SlotVersion(sha, auth, next, slot, hash, id) == SlotVersion(sha, auth, files, slot, hash, id)
  {
  }

  lemma Raised(sha: Hash, auth: Verify, files: seq<File>, next: seq<File>, s: U.Record, t: U.Record)
    requires StateRead(sha, auth, files) == Some(s) && Sound(sha, auth, files, s) && s.candidate != 0
    requires StateRead(sha, auth, next) == Some(t)
    requires t.good == s.candidate && t.goodHash == s.candidateHash && t.appId == s.appId
    requires SlotVersion(sha, auth, next, t.good, t.goodHash, t.appId)
          == SlotVersion(sha, auth, files, s.candidate, s.candidateHash, s.appId)
    ensures NoDowngrade(sha, auth, files, next)
  {
    hide StateRead, SlotVersion, U.Valid;
  }

  /** Every operation of the policy keeps its invariant and the version floor. */
  lemma OpKeeps(sha: Hash, auth: Verify, files: seq<File>, op: Op, next: seq<File>)
    requires PolicyInv(sha, auth, files) && CommitOf(sha, auth, files, op, next)
    ensures PolicyInv(sha, auth, next) && NoDowngrade(sha, auth, files, next)
    ensures op != Finish(true) ==> Confirmed(sha, auth, next) == Confirmed(sha, auth, files)
  {
    hide PolicyInv, CommitOf, NoDowngrade, Confirmed, SameGood;
    if op.Finish? || op.Recover? {
      FinishKeeps(sha, auth, files, op, next);
    } else if op.Begin? {
      BeginKeeps(sha, auth, files, next);
    } else {
      QuietOpKeeps(sha, auth, files, op, next);
    }
    if op != Finish(true) {
      SameGoodFloor(sha, auth, files, next);
    }
  }

  // ----------------------------------------------------- over every store run

  /** Every commit a run of the store begins is one of the policy's. */
  ghost predicate FollowsPolicy(sha: Hash, auth: Verify, run: seq<TC.Sys>) {
    forall k {:trigger run[k]} :: 0 <= k < |run| - 1 && TR.Begins(run[k], run[k + 1]) ==>
      PolicyCommit(sha, auth, run[k].volume.files, run[k + 1].stage.next)
  }

  /** Every commit the run begins is one of operation `op`. */
  ghost predicate RunOf(sha: Hash, auth: Verify, run: seq<TC.Sys>, op: Op) {
    forall k {:trigger run[k]} :: 0 <= k < |run| - 1 && TR.Begins(run[k], run[k + 1]) ==>
      CommitOf(sha, auth, run[k].volume.files, op, run[k + 1].stage.next)
  }

  /** So a run of one operation follows the policy, and confirms nothing unless the operation does. */
  lemma RunOfFollows(sha: Hash, auth: Verify, run: seq<TC.Sys>, op: Op)
    requires run != [] && RunOf(sha, auth, run, op)
    ensures FollowsPolicy(sha, auth, run)
    ensures op != Finish(true) ==> NothingConfirmed(sha, auth, run, 0, |run| - 1)
  {
    hide CommitOf;
    forall k {:trigger run[k]} | 0 <= k < |run| - 1 && TR.Begins(run[k], run[k + 1])
      ensures PolicyCommit(sha, auth, run[k].volume.files, run[k + 1].stage.next)
      ensures op != Finish(true) ==> UnconfirmingCommit(sha, auth, run[k].volume.files, run[k + 1].stage.next)
    {
      assert CommitOf(sha, auth, run[k].volume.files, op, run[k + 1].stage.next);
    }
  }

  /** Runs that meet join into one, and the policy with them. */
  lemma RunsJoin(sha: Hash, auth: Verify, a: seq<TC.Sys>, b: seq<TC.Sys>)
    requires TR.Steps(sha, a) && TR.Steps(sha, b) && a[|a| - 1] == b[0]
    requires FollowsPolicy(sha, auth, a) && FollowsPolicy(sha, auth, b)
    ensures TR.Steps(sha, a + b[1..]) && FollowsPolicy(sha, auth, a + b[1..])
  {
    hide TC.Step, PolicyCommit;
    var all, n := a + b[1..], |a| - 1;
    forall k {:trigger all[k]} | 0 <= k < |all| - 1
      ensures TC.Step(sha, all[k], all[k + 1])
      ensures TR.Begins(all[k], all[k + 1]) ==> PolicyCommit(sha, auth, all[k].volume.files, all[k + 1].stage.next)
    {
      if k < n {
        assert all[k] == a[k] && all[k + 1] == a[k + 1];
      } else {
        assert all[k] == b[k - n] && all[k + 1] == b[k + 1 - n];
      }
    }
  }

  /** Every table a run can expose satisfies the policy's invariant. */
  lemma RunIsSound(sha: Hash, auth: Verify, run: seq<TC.Sys>, P: seq<File> -> bool, i: nat)
    requires TR.IsRun(sha, run) && i < |run| && FollowsPolicy(sha, auth, run)
    requires PolicyInv(sha, auth, run[0].acked.files)
    requires forall files :: P(files) == PolicyInv(sha, auth, files)
    ensures TR.Everywhere(P, run[i])
  {
    hide PolicyInv, TR.Steps, TR.Start, TC.Inv;
    forall k {:trigger run[k]} | 0 <= k < i && TR.Begins(run[k], run[k + 1]) && P(run[k].volume.files)
      ensures P(run[k + 1].stage.next)
    {
      var op :| CommitOf(sha, auth, run[k].volume.files, op, run[k + 1].stage.next);
      OpKeeps(sha, auth, run[k].volume.files, op, run[k + 1].stage.next);
    }
    TR.StartInv(sha, run[0]);
    TR.RunKeeps(sha, run, P, 0, i);
  }

  /**
   In every run of the store under this policy, with any failures and crashes,
   whatever any crash leaves mounts to a table whose confirmed slot holds exactly
   the package whose digest, name and version were confirmed.
   */
  lemma EveryCrashIsSound(sha: Hash, auth: Verify, run: seq<TC.Sys>, i: nat, e: TD.Disk)
    requires TR.IsRun(sha, run) && i < |run| && FollowsPolicy(sha, auth, run)
    requires PolicyInv(sha, auth, run[0].acked.files)
    requires TC.CrashOf(run[i].durable, run[i].pending, e)
    ensures |e| == TD.SECTORS && TD.Recover(sha, e).Mounted?
    ensures PolicyInv(sha, auth, TD.Recover(sha, e).snapshot.files)
  {
    hide TR.IsRun, PolicyInv, TD.Recover, TC.CrashOf;
    ghost var P: seq<File> -> bool := files => PolicyInv(sha, auth, files);
    RunIsSound(sha, auth, run, P, i);
    TR.CrashExposes(sha, run, P, i, i, e);
  }

  /** No commit begun between two points of a run confirms a trial. */
  ghost predicate NothingConfirmed(sha: Hash, auth: Verify, run: seq<TC.Sys>, i: nat, j: nat)
    requires i <= j < |run|
  {
    forall k {:trigger run[k]} :: i <= k < j && TR.Begins(run[k], run[k + 1]) ==>
      UnconfirmingCommit(sha, auth, run[k].volume.files, run[k + 1].stage.next)
  }

  ghost predicate UnconfirmingCommit(sha: Hash, auth: Verify, files: seq<File>, next: seq<File>) {
    exists op: Op :: CommitOf(sha, auth, files, op, next) && op != Finish(true)
  }

  predicate MidTrial(sha: Hash, auth: Verify, files: seq<File>) {
    var s := StateRead(sha, auth, files);
    s.Some? && s.value.phase == U.TRYING
  }

  /** A mounted table in mid-trial is always rolled back to the confirmed package. */
  lemma TrialRollsBack(sha: Hash, auth: Verify, files: seq<File>)
    requires PolicyInv(sha, auth, files) && MidTrial(sha, auth, files)
    ensures exists next :: CommitOf(sha, auth, files, Recover, next) && RolledBack(sha, auth, files, next)
  {
    hide StateRead, Plan, Lookup, Sound, U.Encode;
    var s := StateRead(sha, auth, files).value;
    assert U.Valid(s) by { SoundIsValid(sha, auth, files, s); }
    var u := Commitment(sha, auth, files, Recover).value;
    CommitmentLegal(sha, auth, files, Recover);
    AlwaysRoom(files, u);
    var next := Plan(files, u, |u|).files;
    assert CommitOf(sha, auth, files, Recover, next);
    FinishKeeps(sha, auth, files, Recover, next);
    OpKeeps(sha, auth, files, Recover, next);
    assert RolledBack(sha, auth, files, next);
  }

  lemma SoundIsValid(sha: Hash, auth: Verify, files: seq<File>, s: U.Record)
    requires Sound(sha, auth, files, s)
    ensures U.Valid(s)
  {
  }

  ghost predicate RolledBack(sha: Hash, auth: Verify, files: seq<File>, next: seq<File>) {
    && PolicyInv(sha, auth, next) && StateRead(sha, auth, next).value.phase == U.STABLE
    && Confirmed(sha, auth, next) == Confirmed(sha, auth, files)
  }

  /**
   An interrupted trial recovers to the previous confirmed package: from any
   settled point of a run, as long as no confirmation is begun, whatever any crash
   leaves mounts to a table with the same confirmed package, and if that table is
   in mid-trial the recovery on mount can always commit and keeps that package.
   */
  lemma InterruptedTrialRecovers(sha: Hash, auth: Verify, run: seq<TC.Sys>, i: nat, j: nat, e: TD.Disk)
    requires TR.IsRun(sha, run) && i <= j < |run| && FollowsPolicy(sha, auth, run)
    requires PolicyInv(sha, auth, run[0].acked.files)
    requires run[i].stage.Idle? && run[i].inflight.None? && NothingConfirmed(sha, auth, run, i, j)
    requires TC.CrashOf(run[j].durable, run[j].pending, e)
    ensures |e| == TD.SECTORS && TD.Recover(sha, e).Mounted?
    ensures var files := TD.Recover(sha, e).snapshot.files;
            && PolicyInv(sha, auth, files)
            && Confirmed(sha, auth, files) == Confirmed(sha, auth, run[i].acked.files)
            && (MidTrial(sha, auth, files) ==>
                  exists next :: CommitOf(sha, auth, files, Recover, next) && RolledBack(sha, auth, files, next))
  {
    hide TR.IsRun, PolicyInv, TD.Recover, TC.CrashOf, Confirmed, CommitOf, MidTrial, RolledBack;
    ghost var P: seq<File> -> bool := files => PolicyInv(sha, auth, files);
    RunIsSound(sha, auth, run, P, i);
    var c := Confirmed(sha, auth, run[i].acked.files);
    ghost var Q: seq<File> -> bool := files => PolicyInv(sha, auth, files) && Confirmed(sha, auth, files) == c;
    forall k {:trigger run[k]} | i <= k < j && TR.Begins(run[k], run[k + 1]) && Q(run[k].volume.files)
      ensures Q(run[k + 1].stage.next)
    {
      var op :| op != Finish(true) && CommitOf(sha, auth, run[k].volume.files, op, run[k + 1].stage.next);
      OpKeeps(sha, auth, run[k].volume.files, op, run[k + 1].stage.next);
    }
    TR.CrashExposes(sha, run, Q, i, j, e);
    var files := TD.Recover(sha, e).snapshot.files;
    if MidTrial(sha, auth, files) {
      TrialRollsBack(sha, auth, files);
    }
  }

  /** The confirmed version never decreases, from any point of a run to any later one. */
  lemma VersionNeverDecreases(sha: Hash, auth: Verify, run: seq<TC.Sys>, i: nat, j: nat)
    requires TR.IsRun(sha, run) && i <= j < |run| && FollowsPolicy(sha, auth, run)
    requires PolicyInv(sha, auth, run[0].acked.files)
    ensures NoDowngrade(sha, auth, run[i].acked.files, run[j].acked.files)
    ensures var before, after := Floor(sha, auth, run[i].acked.files), Floor(sha, auth, run[j].acked.files);
            VersionsFit(auth) && before.Some? ==> after.Some? && U.Number(before.value) <= U.Number(after.value)
  {
    hide TR.IsRun, PolicyInv, NoDowngrade, Floor, U.Number;
    ghost var R: (seq<File>, seq<File>) -> bool := (a, b) => NoDowngrade(sha, auth, a, b);
    NoDowngradePreorder(sha, auth, R);
    forall k {:trigger run[k]} | 0 <= k < |run| - 1 && TR.Begins(run[k], run[k + 1])
      ensures R(run[k].volume.files, run[k + 1].stage.next)
    {
      VolumeSound(sha, auth, run, k);
      var op :| CommitOf(sha, auth, run[k].volume.files, op, run[k + 1].stage.next);
      OpKeeps(sha, auth, run[k].volume.files, op, run[k + 1].stage.next);
    }
    TR.RunClimbs(sha, run, R, i, j);
    if VersionsFit(auth) {
      NumberKept(sha, auth, run[i].acked.files, run[j].acked.files);
    }
  }

  lemma NumberKept(sha: Hash, auth: Verify, a: seq<File>, b: seq<File>)
    requires VersionsFit(auth) && NoDowngrade(sha, auth, a, b)
    ensures Floor(sha, auth, a).Some? ==>
              Floor(sha, auth, b).Some? && U.Number(Floor(sha, auth, a).value) <= U.Number(Floor(sha, auth, b).value)
  {
    hide StateRead, Lookup, U.Number, U.Compare;
    if Floor(sha, auth, a).Some? {
      FloorFits(sha, auth, a);
      FloorFits(sha, auth, b);
      U.CompareIsNumeric(Floor(sha, auth, a).value, Floor(sha, auth, b).value);
    }
  }

  lemma FloorFits(sha: Hash, auth: Verify, files: seq<File>)
    requires VersionsFit(auth) && Floor(sha, auth, files).Some?
    ensures U.Fits(Floor(sha, auth, files).value)
  {
    hide StateRead, SlotVersion;
    SlotFits(sha, auth, files, StateRead(sha, auth, files).value);
  }

  lemma VolumeSound(sha: Hash, auth: Verify, run: seq<TC.Sys>, k: nat)
    requires TR.IsRun(sha, run) && k < |run| - 1 && FollowsPolicy(sha, auth, run) && TR.Begins(run[k], run[k + 1])
    requires PolicyInv(sha, auth, run[0].acked.files)
    ensures PolicyInv(sha, auth, run[k].volume.files)
  {
    hide PolicyInv, TC.Step, TR.Start, TC.Inv;
    ghost var P: seq<File> -> bool := files => PolicyInv(sha, auth, files);
    RunIsSound(sha, auth, run, P, k);
    TR.StartInv(sha, run[0]);
    TR.StepsInv(sha, run, k);
    TR.BeginsReady(sha, run[k], run[k + 1]);
  }

  lemma NoDowngradePreorder(sha: Hash, auth: Verify, R: (seq<File>, seq<File>) -> bool)
    requires forall a, b :: R(a, b) == NoDowngrade(sha, auth, a, b)
    ensures TR.Preorder(R)
  {
    hide StateRead, Floor;
    forall a
      ensures R(a, a)
    {
    }
    forall a, b, c | R(a, b) && R(b, c)
      ensures R(a, c)
    {
      assert NoDowngrade(sha, auth, a, b) && NoDowngrade(sha, auth, b, c);
      if Floor(sha, auth, a).Some? {
        U.LeOrder(Floor(sha, auth, a).value, Floor(sha, auth, b).value, Floor(sha, auth, c).value);
      }
    }
  }
}
