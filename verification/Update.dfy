/** The A/B update record: its 160-byte encoding, its transitions and version order. */
module Update {
  import opened Bytes
  import opened TxnImage

  const STABLE: byte := 0
  const PENDING: byte := 1
  const TRYING: byte := 2
  const SLOT_A: byte := 97
  const SLOT_B: byte := 98
  const UPDATE_BYTES := 160

  /** "SFUPD1" and two NULs. */
  const UPDATE_MAGIC: seq<byte> := [83, 70, 85, 80, 68, 49, 0, 0]

  type AppId = s: seq<byte> | |s| == 64 witness Zeros(64)

  /** Slots are 'a', 'b' or 0 for none; the name is NUL padded. */
  datatype Record = Record(phase: byte, good: byte, candidate: byte,
                           goodHash: Digest, candidateHash: Digest, appId: AppId)

  const BLANK := Record(STABLE, 0, 0, Zeros(32), Zeros(32), Zeros(64))

  predicate IsSlot(s: byte) { s == SLOT_A || s == SLOT_B }

  predicate IdChar(c: byte) {
    97 <= c <= 122 || 65 <= c <= 90 || 48 <= c <= 57 || c == 46 || c == 45 || c == 95
  }

  /** A nonempty name of at most 63 legal characters, then zeros. */
  predicate Identity(id: AppId) {
    exists n {:trigger id[..n]} :: 1 <= n < 64 && (forall k :: 0 <= k < n ==> IdChar(id[..n][k])) && AllZero(id[n..])
  }

  predicate Valid(s: Record) {
    && s.phase <= TRYING && (IsSlot(s.good) || s.good == 0) && (IsSlot(s.candidate) || s.candidate == 0)
    && (s.good == 0 <==> AllZero(s.goodHash)) && (s.candidate == 0 <==> AllZero(s.candidateHash))
    && (if s.phase == STABLE then s.candidate == 0 else s.candidate != 0 && s.candidate != s.good)
    && (if s.good != 0 || s.candidate != 0 then Identity(s.appId) else AllZero(s.appId))
  }

  function Encode(s: Record): (b: seq<byte>)
    ensures |b| == UPDATE_BYTES
  {
    UPDATE_MAGIC + [s.phase, s.good, s.candidate] + Zeros(21) + s.goodHash + s.candidateHash + s.appId
  }

  function Fields(b: seq<byte>): Record
    requires |b| == UPDATE_BYTES
  {
    Record(b[8], b[9], b[10], b[32..64], b[64..96], b[96..160])
  }

  function Decode(b: seq<byte>): Option<Record> {
    if |b| != UPDATE_BYTES || b[..8] != UPDATE_MAGIC || !AllZero(b[11..32]) || !Valid(Fields(b)) then None
    else Some(Fields(b))
  }

  /** Encoding and decoding are inverse on the legal records. */
  lemma DecodeEncode(s: Record)
    ensures Decode(Encode(s)) == if Valid(s) then Some(s) else None
  {
    hide Valid;
    var b := Encode(s);
    assert b[..8] == UPDATE_MAGIC;
    assert b[11..32] == Zeros(21);
    assert b[32..64] == s.goodHash && b[64..96] == s.candidateHash && b[96..160] == s.appId;
    assert Fields(b) == s;
  }

  lemma EncodeDecode(b: seq<byte>)
    requires Decode(b).Some?
    ensures Valid(Decode(b).value) && Encode(Decode(b).value) == b
  {
    hide Valid;
    AllZeroIsZeros(b[11..32]);
    assert b == b[..8] + [b[8], b[9], b[10]] + b[11..32] + b[32..64] + b[64..96] + b[96..160];
  }

  /** Where each field of a record is stored. */
  lemma EncodeLayout(s: Record, k: nat)
    requires k < UPDATE_BYTES
    ensures Encode(s)[k] ==
              if k < 8 then [83, 70, 85, 80, 68, 49, 0, 0][k] else if k == 8 then s.phase else if k == 9 then s.good
              else if k == 10 then s.candidate else if k < 32 then 0 else if k < 64 then s.goodHash[k - 32]
              else if k < 96 then s.candidateHash[k - 64] else s.appId[k - 96]
  {
  }

  // ------------------------------------------------------------ transitions

  function OtherSlot(good: byte): byte { if good == SLOT_A then SLOT_B else SLOT_A }

  /** Names `id` with digest `hash` as the candidate in the slot not confirmed. */
  function Stage(s: Record, id: AppId, hash: Digest): Option<Record> {
    if !Valid(s) || s.phase != STABLE || !Identity(id) || AllZero(hash) || (s.good != 0 && s.appId != id) then None
    else Some(s.(appId := id, candidate := OtherSlot(s.good), candidateHash := hash, phase := PENDING))
  }

  function BeginTrial(s: Record): Option<Record> {
    if !Valid(s) || s.phase != PENDING then None else Some(s.(phase := TRYING))
  }

  function Finish(s: Record, success: bool): Option<Record> {
    if !Valid(s) || s.phase != TRYING then None
    else
      var kept := if success then s.(good := s.candidate, goodHash := s.candidateHash) else s;
      Some(kept.(phase := STABLE, candidate := 0, candidateHash := Zeros(32),
                 appId := if kept.good == 0 then Zeros(64) else kept.appId))
  }

  /** Every transition of a legal record yields a legal record. */
  lemma TransitionsStayValid(s: Record, id: AppId, hash: Digest, success: bool)
    ensures Stage(s, id, hash).Some? ==> Valid(Stage(s, id, hash).value)
    ensures BeginTrial(s).Some? ==> Valid(BeginTrial(s).value)
    ensures Finish(s, success).Some? ==> Valid(Finish(s, success).value)
  {
    hide Identity;
  }

  // --------------------------------------------------------------- versions

  datatype Version = Version(major: nat, minor: nat, patch: nat)

  /** Lexicographic order on the three parts: 1, 0 or -1. */
  function Compare(a: Version, b: Version): (r: int)
    ensures -1 <= r <= 1
    ensures r == 0 <==> a == b
  {
    if a.major != b.major then (if a.major > b.major then 1 else -1)
    else if a.minor != b.minor then (if a.minor > b.minor then 1 else -1)
    else if a.patch != b.patch then (if a.patch > b.patch then 1 else -1)
    else 0
  }

  predicate Le(a: Version, b: Version) { Compare(a, b) <= 0 }

  const U32: nat := 0x1_0000_0000

  predicate Fits(v: Version) { v.major < U32 && v.minor < U32 && v.patch < U32 }

  /** A version as one number: the major part weighs most, the patch least. */
  function Number(v: Version): nat { (v.major * U32 + v.minor) * U32 + v.patch }

  /** Versions compare as their numbers do. */
  lemma CompareIsNumeric(a: Version, b: Version)
    requires Fits(a) && Fits(b)
    ensures Compare(a, b) < 0 <==> Number(a) < Number(b)
    ensures Compare(a, b) > 0 <==> Number(a) > Number(b)
  {
  }

  lemma LeOrder(a: Version, b: Version, c: Version)
    ensures Le(a, a) && (Le(a, b) || Le(b, a))
    ensures Le(a, b) && Le(b, c) ==> Le(a, c)
    ensures Le(a, b) && Le(b, a) ==> a == b
  {
  }

  datatype Verdict = Upgrade | Reinstall | Rejected

  function Judge(current: Version, good: Digest, candidate: Version, next: Digest): Verdict {
    var r := Compare(candidate, current);
    if r > 0 then Upgrade else if r < 0 || good != next then Rejected else Reinstall
  }
}
