/**
 The two-bank volume on a disk with a write cache. Bytes written but not yet
 flushed are pending; a crash keeps, byte by byte, either the durable byte or a
 byte of some pending write to the same sector, so whole sectors may be lost,
 reordered or torn.
 */
module TxnDisk {
  import opened Bytes
  import opened TxnImage

  const SECTORS := 4096
  const HEADER := 2048
  const BANK := 2051

  /** "SFTXN1" and "SFCMT1", each with two NULs. */
  const TXN_MAGIC: seq<byte> := [83, 70, 84, 88, 78, 49, 0, 0]
  const CMT_MAGIC: seq<byte> := [83, 70, 67, 77, 84, 49, 0, 0]

  type Sector = s: seq<byte> | |s| == 512 witness Zeros(512)
  type Disk = seq<Sector>
  datatype Write = Write(lba: nat, data: Sector)
  datatype Snapshot = Snapshot(generation: nat, files: seq<File>)

  function RecordLba(slot: nat): nat { HEADER + 1 + slot }
  function DataLba(slot: nat, i: nat): nat { BANK + slot * BANK_SECTORS + i }

  predicate IsData(slot: nat, lba: nat) { DataLba(slot, 0) <= lba < DataLba(slot, BANK_SECTORS) }
  predicate InBank(slot: nat, lba: nat) { lba == RecordLba(slot) || IsData(slot, lba) }

  // ------------------------------------------------------- reading a volume

  predicate Sealed(sha: Hash, s: Sector) { sha(s[..480]) == s[480..] }

  predicate HeaderOk(sha: Hash, s: Sector) {
    && s[..8] == TXN_MAGIC && LeVal(s[8..12]) == 1 && LeVal(s[12..16]) == SECTORS
    && AllZero(s[32..480]) && Sealed(sha, s)
  }

  function VolumeId(s: Sector): seq<byte> { s[16..32] }

  predicate RecordOk(sha: Hash, s: Sector, slot: nat, volume: seq<byte>) {
    && s[..8] == CMT_MAGIC && Sealed(sha, s) && LeVal(s[8..16]) != 0
    && LeVal(s[16..20]) == slot && LeVal(s[20..24]) == 0
    && s[24..40] == volume && AllZero(s[72..480])
  }

  function BankBytes(d: Disk, slot: nat): (b: seq<byte>)
    requires |d| == SECTORS && slot < 2
    ensures |b| == BANK_BYTES
  {
    seq(BANK_BYTES, k requires 0 <= k < BANK_BYTES => d[DataLba(slot, k / 512)][k % 512])
  }

  /** What a mount makes of one bank: nothing, or a complete snapshot. */
  function BankAt(sha: Hash, d: Disk, slot: nat): Option<Snapshot>
    requires |d| == SECTORS && slot < 2
  {
    var s, b := d[RecordLba(slot)], BankBytes(d, slot);
    if !RecordOk(sha, s, slot, VolumeId(d[HEADER])) || sha(b) != s[40..72] then None
    else
      var generation := LeVal(s[8..16]);
      match Decode(sha, b, generation, CURRENT)
      case Some(files) => Some(Snapshot(generation, files))
      case None =>
        match Decode(sha, b, generation, LEGACY)
        case Some(files) => Some(Snapshot(generation, files))
        case None => None
  }

  datatype Mount = Mounted(snapshot: Snapshot, bank: nat) | Refused

  /** The newer of the valid banks, refusing a tie. */
  function Choose(x: Option<Snapshot>, y: Option<Snapshot>): (m: Mount)
    ensures m.Mounted? ==> m.bank < 2
  {
    match (x, y)
    case (None, None) => Refused
    case (Some(a), None) => Mounted(a, 0)
    case (None, Some(b)) => Mounted(b, 1)
    case (Some(a), Some(b)) =>
      if a.generation == b.generation then Refused
      else if b.generation > a.generation then Mounted(b, 1)
      else Mounted(a, 0)
  }

  /** The mount decision on everything the disk holds. */
  function Recover(sha: Hash, d: Disk): (m: Mount)
    requires |d| == SECTORS
    ensures m.Mounted? ==> m.bank < 2
  {
    if !HeaderOk(sha, d[HEADER]) then Refused else Choose(BankAt(sha, d, 0), BankAt(sha, d, 1))
  }

  // ------------------------------------------------------ the commit record

  function RecordBody(slot: nat, volume: seq<byte>, generation: nat, digest: Digest): (r: seq<byte>)
    requires |volume| == 16
    ensures |r| == 480
  {
    CMT_MAGIC + Le(generation, 8) + Le(slot, 4) + Zeros(4) + volume + digest + Zeros(408)
  }

  function CommitRecord(sha: Hash, slot: nat, volume: seq<byte>, generation: nat, digest: Digest): (s: Sector)
    requires |volume| == 16
  {
    var body := RecordBody(slot, volume, generation, digest);
    body + sha(body)
  }

  function HeaderGeneration(d: Disk, slot: nat): nat
    requires |d| == SECTORS && slot < 2
  {
    LeVal(BankBytes(d, slot)[8..16])
  }

  /** The only record that can ever validate the bank bytes now on the disk. */
  function Canon(sha: Hash, d: Disk, slot: nat): Sector
    requires |d| == SECTORS && slot < 2
  {
    CommitRecord(sha, slot, VolumeId(d[HEADER]), HeaderGeneration(d, slot), sha(BankBytes(d, slot)))
  }

  lemma RecordBodyFields(slot: nat, volume: seq<byte>, generation: nat, digest: Digest)
    requires |volume| == 16
    ensures var r := RecordBody(slot, volume, generation, digest);
            && r[..8] == CMT_MAGIC && r[8..16] == Le(generation, 8) && r[16..20] == Le(slot, 4)
            && r[20..24] == Zeros(4) && r[24..40] == volume && r[40..72] == digest && r[72..480] == Zeros(408)
            && r[0] == 83
  {
    hide Le, Zeros;
    var r := RecordBody(slot, volume, generation, digest);
    var g, l, z := Le(generation, 8), Le(slot, 4), Zeros(4);
    assert r[..8] == CMT_MAGIC && r[8..16] == g && r[16..20] == l;
    assert r[20..24] == z && r[24..40] == volume;
    assert r[40..72] == digest && r[72..480] == Zeros(408);
  }

  lemma CanonFirstByte(sha: Hash, d: Disk, slot: nat)
    requires |d| == SECTORS && slot < 2
    ensures Canon(sha, d, slot)[0] == 83
  {
  }

  lemma RecordParts(sha: Hash, s: Sector, slot: nat, volume: seq<byte>)
    requires RecordOk(sha, s, slot, volume) && |volume| == 16
    ensures s == CommitRecord(sha, slot, volume, LeVal(s[8..16]), s[40..72])
  {
    hide Le, LeVal;
    FieldsOf(s, slot);
    var body := RecordBody(slot, volume, LeVal(s[8..16]), s[40..72]);
    assert s[..480] == body by { SevenFields(s); }
    assert s == s[..480] + s[480..];
  }

  lemma SevenFields(s: Sector)
    ensures s[..480] == s[..8] + s[8..16] + s[16..20] + s[20..24] + s[24..40] + s[40..72] + s[72..480]
  {
    assert s[..16] == s[..8] + s[8..16];
    assert s[..20] == s[..16] + s[16..20];
    assert s[..24] == s[..20] + s[20..24];
    assert s[..40] == s[..24] + s[24..40];
    assert s[..72] == s[..40] + s[40..72];
    assert s[..480] == s[..72] + s[72..480];
  }

  lemma FieldsOf(s: Sector, slot: nat)
    requires LeVal(s[16..20]) == slot && LeVal(s[20..24]) == 0 && AllZero(s[72..480])
    ensures s[8..16] == Le(LeVal(s[8..16]), 8) && s[16..20] == Le(slot, 4)
    ensures s[20..24] == Zeros(4) && s[72..480] == Zeros(408)
  {
    LeCanonical(s[8..16]);
    LeCanonical(s[16..20]);
    LeCanonical(s[20..24]);
    LeZero(4);
    AllZeroIsZeros(s[72..480]);
  }

  lemma {:induction false} LeZero(n: nat)
    ensures Le(0, n) == Zeros(n)
  {
    if n > 0 {
      LeZero(n - 1);
    }
  }

  /** A bank validates only under its canonical record, for every hash. */
  lemma ValidIsCanonical(sha: Hash, d: Disk, slot: nat)
    requires |d| == SECTORS && slot < 2 && BankAt(sha, d, slot).Some?
    ensures d[RecordLba(slot)] == Canon(sha, d, slot)
    ensures BankAt(sha, d, slot).value.generation == HeaderGeneration(d, slot)
    ensures BankAt(sha, d, slot).value.generation != 0
  {
    RecordParts(sha, d[RecordLba(slot)], slot, VolumeId(d[HEADER]));
  }

  /** A complete image under its canonical record is a valid bank. */
  lemma BuiltBankIsValid(sha: Hash, d: Disk, slot: nat, sn: Snapshot)
    requires |d| == SECTORS && slot < 2 && Wf(sn.files) && 1 <= sn.generation <= MAX_U64
    requires BankBytes(d, slot) == Image(sha, sn.generation, sn.files)
    ensures HeaderGeneration(d, slot) == sn.generation
    ensures d[RecordLba(slot)] == Canon(sha, d, slot) ==> BankAt(sha, d, slot) == Some(sn)
  {
    DecodeImage(sha, sn.generation, sn.files);
    ImageHeaderFields(sha, sn.generation, sn.files);
    if d[RecordLba(slot)] == Canon(sha, d, slot) {
      CommitRecordOk(sha, slot, VolumeId(d[HEADER]), sn.generation, sha(BankBytes(d, slot)));
    }
  }

  lemma CommitRecordOk(sha: Hash, slot: nat, volume: seq<byte>, generation: nat, digest: Digest)
    requires |volume| == 16 && slot < 2 && 1 <= generation <= MAX_U64
    ensures var s := CommitRecord(sha, slot, volume, generation, digest);
            RecordOk(sha, s, slot, volume) && LeVal(s[8..16]) == generation && s[40..72] == digest
  {
    var body := RecordBody(slot, volume, generation, digest);
    var s := CommitRecord(sha, slot, volume, generation, digest);
    assert s[..480] == body && s[480..] == sha(body);
    RecordBodyFields(slot, volume, generation, digest);
    Pow256Values();
    LeRoundTrip(generation, 8);
    LeRoundTrip(slot, 4);
    LeZero(4);
    LeRoundTrip(0, 4);
    assert s[..8] == body[..8];
    assert s[8..16] == body[8..16];
    assert s[16..20] == body[16..20];
    assert s[20..24] == body[20..24];
    assert s[24..40] == body[24..40];
    assert s[40..72] == body[40..72];
    assert s[72..480] == body[72..480];
  }

  /** Only a bank's own sectors and the header decide what it is. */
  lemma BankFrame(sha: Hash, d: Disk, e: Disk, slot: nat)
    requires |d| == |e| == SECTORS && slot < 2
    requires d[HEADER] == e[HEADER]
    requires forall i: nat :: IsData(slot, i) ==> d[i] == e[i]
    ensures BankBytes(d, slot) == BankBytes(e, slot)
    ensures Canon(sha, d, slot) == Canon(sha, e, slot)
    ensures d[RecordLba(slot)] == e[RecordLba(slot)] ==> BankAt(sha, d, slot) == BankAt(sha, e, slot)
  {
    assert BankBytes(d, slot) == BankBytes(e, slot) by {
      forall k | 0 <= k < BANK_BYTES
        ensures d[DataLba(slot, k / 512)][k % 512] == e[DataLba(slot, k / 512)][k % 512]
      {
        assert IsData(slot, DataLba(slot, k / 512));
      }
    }
  }

  // ---------------------------------------------------- exactly what mounts

  /** The only header sector of a volume with this identifier. */
  function HeaderSector(sha: Hash, id: seq<byte>): (s: Sector)
    requires |id| == 16
  {
    var body := TXN_MAGIC + Le(1, 4) + Le(SECTORS, 4) + id + Zeros(448);
    body + sha(body)
  }

  lemma HeaderExact(sha: Hash, s: Sector)
    ensures HeaderOk(sha, s) <==> s == HeaderSector(sha, VolumeId(s))
  {
    hide Le, LeVal, Zeros;
    var id := VolumeId(s);
    var body := TXN_MAGIC + Le(1, 4) + Le(SECTORS, 4) + id + Zeros(448);
    Pow256Values();
    LeRoundTrip(1, 4);
    LeRoundTrip(SECTORS, 4);
    if HeaderOk(sha, s) {
      LeCanonical(s[8..12]);
      LeCanonical(s[12..16]);
      AllZeroIsZeros(s[32..480]);
      assert s[..480] == s[..8] + s[8..12] + s[12..16] + s[16..32] + s[32..480];
      assert s == s[..480] + s[480..];
    }
    if s == HeaderSector(sha, id) {
      assert s[..480] == body && s[480..] == sha(body);
      assert s[..8] == body[..8] == TXN_MAGIC;
      assert s[8..12] == body[8..12] == Le(1, 4);
      assert s[12..16] == body[12..16] == Le(SECTORS, 4);
      assert s[32..480] == body[32..480] == Zeros(448);
    }
  }

  /** The bank holds the table of `sn` with five records and data from byte 1152. */
  ghost predicate HoldsFive(sha: Hash, b: seq<byte>, sn: Snapshot) { Wf(sn.files) && Lays(sha, b, sn.generation, sn.files, 5, 1152) }

  /** The bank holds the table of `sn` as the first format did, with four records and data from byte 1024. */
  ghost predicate HoldsFour(sha: Hash, b: seq<byte>, sn: Snapshot) { Wf(sn.files) && Lays(sha, b, sn.generation, sn.files, 4, 1024) }

  ghost predicate ReadsAsFive(sha: Hash, b: seq<byte>, generation: nat) {
    exists files :: HoldsFive(sha, b, Snapshot(generation, files))
  }

  /**
   A bank is the snapshot `sn` exactly when its commit record is the one for its
   bytes and those bytes hold `sn` in the current format, or in the first format
   and nothing in the current one.
   */
  lemma BankExact(sha: Hash, d: Disk, slot: nat, sn: Snapshot)
    requires |d| == SECTORS && slot < 2
    ensures BankAt(sha, d, slot) == Some(sn) <==>
              && 1 <= sn.generation <= MAX_U64
              && d[RecordLba(slot)] == CommitRecord(sha, slot, VolumeId(d[HEADER]), sn.generation, sha(BankBytes(d, slot)))
              && (|| HoldsFive(sha, BankBytes(d, slot), sn)
                  || (HoldsFour(sha, BankBytes(d, slot), sn) && !ReadsAsFive(sha, BankBytes(d, slot), sn.generation)))
  {
    hide Decode, Lays, Wf, RecordOk, LeVal, CommitRecord, HoldsFive, HoldsFour, BankBytes;
    var s, b, v := d[RecordLba(slot)], BankBytes(d, slot), VolumeId(d[HEADER]);
    if 1 <= sn.generation <= MAX_U64 {
      RecordExact(sha, s, slot, v, sn.generation, sha(b));
      FormatsExact(sha, b, sn);
    } else if BankAt(sha, d, slot) == Some(sn) {
      RecordGeneration(sha, s, slot, v);
    }
  }

  lemma RecordGeneration(sha: Hash, s: Sector, slot: nat, volume: seq<byte>)
    requires RecordOk(sha, s, slot, volume)
    ensures 1 <= LeVal(s[8..16]) <= MAX_U64
  {
    LeCanonical(s[8..16]);
    Pow256Values();
  }

  /** A record passes for a generation and digest exactly when it is the one written for them. */
  lemma RecordExact(sha: Hash, s: Sector, slot: nat, volume: seq<byte>, generation: nat, digest: Digest)
    requires |volume| == 16 && slot < 2 && 1 <= generation <= MAX_U64
    ensures s == CommitRecord(sha, slot, volume, generation, digest) <==>
              RecordOk(sha, s, slot, volume) && LeVal(s[8..16]) == generation && s[40..72] == digest
  {
    hide CommitRecord, LeVal, RecordOk;
    CommitRecordOk(sha, slot, volume, generation, digest);
    if RecordOk(sha, s, slot, volume) {
      RecordParts(sha, s, slot, volume);
    }
  }

  lemma FormatsExact(sha: Hash, b: seq<byte>, sn: Snapshot)
    requires |b| == BANK_BYTES && 1 <= sn.generation <= MAX_U64
    ensures HoldsFive(sha, b, sn) <==> Decode(sha, b, sn.generation, CURRENT) == Some(sn.files)
    ensures HoldsFour(sha, b, sn) <==> Decode(sha, b, sn.generation, LEGACY) == Some(sn.files)
    ensures ReadsAsFive(sha, b, sn.generation) <==> Decode(sha, b, sn.generation, CURRENT).Some?
  {
    hide Decode, Lays, Wf;
    DecodeExact(sha, b, sn.generation, CURRENT, sn.files);
    DecodeExact(sha, b, sn.generation, LEGACY, sn.files);
    if ReadsAsFive(sha, b, sn.generation) {
      var files :| HoldsFive(sha, b, Snapshot(sn.generation, files));
      DecodeExact(sha, b, sn.generation, CURRENT, files);
    }
    if Decode(sha, b, sn.generation, CURRENT).Some? {
      var files := Decode(sha, b, sn.generation, CURRENT).value;
      DecodeExact(sha, b, sn.generation, CURRENT, files);
      assert HoldsFive(sha, b, Snapshot(sn.generation, files));
    }
  }

  /** A mount selects a bank exactly when it is valid and the other is not, or is older, under a proper header. */
  lemma RecoverExact(sha: Hash, d: Disk, sn: Snapshot, bank: nat)
    requires |d| == SECTORS
    ensures Recover(sha, d) == Mounted(sn, bank) <==>
              && d[HEADER] == HeaderSector(sha, VolumeId(d[HEADER])) && bank < 2 && BankAt(sha, d, bank) == Some(sn)
              && (BankAt(sha, d, 1 - bank).Some? ==> BankAt(sha, d, 1 - bank).value.generation < sn.generation)
  {
    hide BankAt, HeaderOk, HeaderSector;
    HeaderExact(sha, d[HEADER]);
  }
}
