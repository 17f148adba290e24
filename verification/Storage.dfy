/** The two provisioning sectors of a keypad's flash, as src/provisioning/storage.js reads them. */
module Storage {
  import opened Prelude
  import opened Credentials
  import Crc
  import Format

  const SECTOR_SIZE := 4096
  const RECORD_MAGIC: Bytes := [0x4d, 0x46, 0x52, 0x31]
  const COMMIT_MARK: Bytes := [0x4d, 0x46, 0x50, 0x43]
  const HALF: int := 0x8000_0000

  datatype Record = Record(generation: nat, values: Format.Values)

  datatype Copy = A | B

  datatype Selection = Blank | Invalid | Configured(copy: Copy, record: Record)

  /** The record in a full-size sector, or `None` where `readRecord` returns null. */
  function ReadRecord(isRsa: Format.KeyParser, sector: Bytes): (r: Option<Record>)
    requires |sector| == SECTOR_SIZE
    ensures r.Some? ==> r.value.generation < TWO32
  {
    Pow256Values();
    var size := ReadBE(sector[9..11]);
    :- Need(sector[..4] == RECORD_MAGIC && sector[4] == 1 && sector[SECTOR_SIZE - 4..] == COMMIT_MARK);
    :- Need(0 < size <= Format.MAX_PAYLOAD_SIZE);
    :- Need(ReadBE(sector[11 + size..15 + size]) == Crc.Checksum(sector[..11 + size]));
    var values :- Format.DecodePayload(isRsa, sector[11..11 + size]);
    Some(Record(ReadBE(sector[5..9]), values))
  }

  predicate Erased(sector: Bytes) {
    forall i :: 0 <= i < |sector| ==> sector[i] == 255
  }

  /** The uint32 serial-number comparison: `a` is ahead of `b` by less than half the number space. */
  predicate Newer(a: nat, b: nat) {
    a != b && (a - b) % TWO32 < HALF
  }

  function Select(isRsa: Format.KeyParser, a: Bytes, b: Bytes): Selection
    requires |a| == |b| == SECTOR_SIZE
  {
    var x, y := ReadRecord(isRsa, a), ReadRecord(isRsa, b);
    if x.None? && y.None? then if Erased(a) && Erased(b) then Blank else Invalid
    else if x.Some? && (y.None? || Newer(x.value.generation, y.value.generation)) then Configured(A, x.value)
    else Configured(B, y.value)
  }

  /** What `selectProvisioning` returns; it throws for a sector of the wrong size. */
  function SelectProvisioning(isRsa: Format.KeyParser, a: Bytes, b: Bytes): Option<Selection> {
    if |a| == |b| == SECTOR_SIZE then Some(Select(isRsa, a, b)) else None
  }

  // ---- Which copy wins ----

  /**
   * Copy A wins exactly when it is valid and B is invalid or behind it by 1 to 2^31 - 1 generations; ties, and a
   * distance of 2^31 (undefined in section 3.2 of RFC 1982), pick B.
   */
  lemma SelectionRule(isRsa: Format.KeyParser, a: Bytes, b: Bytes)
    requires |a| == |b| == SECTOR_SIZE
    requires Select(isRsa, a, b).Configured?
    ensures var s, x, y := Select(isRsa, a, b), ReadRecord(isRsa, a), ReadRecord(isRsa, b);
            && (s.copy == A <==> x.Some? && (y.None? || 1 <= (x.value.generation - y.value.generation) % TWO32 < HALF))
            && Some(s.record) == (if s.copy == A then x else y)
  {
    hide ReadRecord;
    var x, y := ReadRecord(isRsa, a), ReadRecord(isRsa, b);
    if x.Some? && y.Some? {
      ModuloZero(x.value.generation, y.value.generation);
    }
  }

  lemma ModuloZero(a: nat, b: nat)
    requires a < TWO32 && b < TWO32
    ensures (a - b) % TWO32 == 0 <==> a == b
    ensures a != b ==> (b - a) % TWO32 == TWO32 - (a - b) % TWO32
  {
    assert a >= b ==> (a - b) % TWO32 == a - b;
    assert a < b ==> (a - b) % TWO32 == a - b + TWO32;
    assert b >= a ==> (b - a) % TWO32 == b - a;
    assert b < a ==> (b - a) % TWO32 == b - a + TWO32;
  }

  /** The choice ignores which sector holds which record, except for two records with equal or opposite generations. */
  lemma PlacementIndependent(isRsa: Format.KeyParser, a: Bytes, b: Bytes)
    requires |a| == |b| == SECTOR_SIZE
    requires ReadRecord(isRsa, a).Some? && ReadRecord(isRsa, b).Some?
    requires ReadRecord(isRsa, a) != ReadRecord(isRsa, b)
    ensures var d := (ReadRecord(isRsa, a).value.generation - ReadRecord(isRsa, b).value.generation) % TWO32;
            Select(isRsa, a, b).record == Select(isRsa, b, a).record <==> d != 0 && d != HALF
  {
    hide ReadRecord;
    ModuloZero(ReadRecord(isRsa, a).value.generation, ReadRecord(isRsa, b).value.generation);
  }

  /** Flash is blank only if every byte of it is erased, and damaged if it is not and holds no record. */
  lemma NothingSelected(isRsa: Format.KeyParser, a: Bytes, b: Bytes)
    requires |a| == |b| == SECTOR_SIZE
    ensures Select(isRsa, a, b).Blank? <==> forall i :: 0 <= i < 4096 ==> a[i] == 255 && b[i] == 255
    ensures Select(isRsa, a, b).Configured? <==> ReadRecord(isRsa, a).Some? || ReadRecord(isRsa, b).Some?
  {
    if forall i :: 0 <= i < 4096 ==> a[i] == 255 && b[i] == 255 {
      assert a[..4][0] == 255 && b[..4][0] == 255;
    }
  }

  // ---- Writing ----

  /** A sector holding one committed record: header, payload, checksum, erased filler, commit mark. */
  function RecordSector(generation: nat, payload: Bytes): (sector: Bytes)
    requires |payload| <= Format.MAX_PAYLOAD_SIZE
    ensures |sector| == SECTOR_SIZE
  {
    var body := RECORD_MAGIC + [1] + WriteBE(generation, 4) + WriteBE(|payload|, 2) + payload;
    var head := body + WriteBE(Crc.Checksum(body), 4);
    head + Repeat(255, SECTOR_SIZE - 4 - |head|) + COMMIT_MARK
  }

  /** A committed record reads back as its generation and settings. */
  lemma RecordRoundTrip(isRsa: Format.KeyParser, generation: nat, payload: Bytes)
    requires generation < TWO32 && 0 < |payload| <= Format.MAX_PAYLOAD_SIZE
    requires Format.DecodePayload(isRsa, payload).Some?
    ensures ReadRecord(isRsa, RecordSector(generation, payload))
         == Some(Record(generation, Format.DecodePayload(isRsa, payload).value))
  {
    hide Crc.Checksum, WriteBE, ReadBE, Format.DecodePayload, ReadRecord;
    var sector, head := RecordSector(generation, payload), 15 + |payload|;
    assert RECORD_MAGIC + [1] + WriteBE(generation, 4) + WriteBE(|payload|, 2) + payload
        == Covered(generation, payload);
    assert LaidOut(sector, generation, payload, Repeat(255, SECTOR_SIZE - 4 - head));
    LaidOutReads(isRsa, sector, generation, payload, Repeat(255, SECTOR_SIZE - 4 - head));
  }

  /** The bytes that the checksum of a record covers. */
  function Covered(generation: nat, payload: Bytes): Bytes {
    [0x4d, 0x46, 0x52, 0x31, 1] + WriteBE(generation, 4) + WriteBE(|payload|, 2) + payload
  }

  /** The sector is laid out as this record, whatever fills it up. */
  predicate LaidOut(sector: Bytes, generation: nat, payload: Bytes, filler: Bytes) {
    sector == Covered(generation, payload) + WriteBE(Crc.Checksum(Covered(generation, payload)), 4) + filler
              + [0x4d, 0x46, 0x50, 0x43]
  }

  lemma LaidOutReads(isRsa: Format.KeyParser, sector: Bytes, generation: nat, payload: Bytes, filler: Bytes)
    requires |sector| == SECTOR_SIZE && LaidOut(sector, generation, payload, filler)
    requires generation < TWO32 && 0 < |payload| <= Format.MAX_PAYLOAD_SIZE
    ensures ReadRecord(isRsa, sector) ==
            match Format.DecodePayload(isRsa, payload)
            case None => None
            case Some(values) => Some(Record(generation, values))
  {
    hide Crc.Checksum, WriteBE, ReadBE, Format.DecodePayload;
    Pow256Values();
    var n, body := |payload|, Covered(generation, payload);
    ReadOfWriteBE(generation, 4);
    ReadOfWriteBE(n, 2);
    ReadOfWriteBE(Crc.Checksum(body), 4);
    assert sector[..4] == RECORD_MAGIC && sector[4] == 1;
    assert sector[5..9] == WriteBE(generation, 4);
    assert sector[9..11] == WriteBE(n, 2);
    assert sector[11..11 + n] == payload;
    assert sector[..11 + n] == body;
    assert sector[11 + n..15 + n] == WriteBE(Crc.Checksum(body), 4);
    assert sector[SECTOR_SIZE - 4..] == COMMIT_MARK;
  }

  lemma ReadsLaidOut(isRsa: Format.KeyParser, sector: Bytes)
    requires |sector| == SECTOR_SIZE && ReadRecord(isRsa, sector).Some?
    ensures var n := ReadBE(sector[9..11]);
            && 0 < n <= Format.MAX_PAYLOAD_SIZE
            && LaidOut(sector, ReadBE(sector[5..9]), sector[11..11 + n], sector[15 + n..SECTOR_SIZE - 4])
  {
    hide Crc.Checksum, WriteBE, ReadBE, Format.DecodePayload;
    Pow256Values();
    var n := ReadBE(sector[9..11]);
    WriteOfReadBE(sector[5..9]);
    WriteOfReadBE(sector[9..11]);
    WriteOfReadBE(sector[11 + n..15 + n]);
    assert sector[..4] + [sector[4]] == [0x4d, 0x46, 0x52, 0x31, 1];
    assert sector[..11 + n] == sector[..4] + [sector[4]] + sector[5..9] + sector[9..11] + sector[11..11 + n];
    assert sector == sector[..11 + n] + sector[11 + n..15 + n] + sector[15 + n..SECTOR_SIZE - 4]
                     + sector[SECTOR_SIZE - 4..];
  }

  /** This record stands in the sector. */
  ghost predicate Holds(isRsa: Format.KeyParser, sector: Bytes, record: Record) {
    && record.generation < TWO32
    && exists payload, filler ::
         && LaidOut(sector, record.generation, payload, filler)
         && 0 < |payload| <= 1024 && Format.DecodePayload(isRsa, payload) == Some(record.values)
  }

  /**
   * A sector reads as a record if and only if it is laid out as that record: marks at both ends, version, generation
   * and size in network order, a payload that decodes to the settings, and the right checksum over all of it.
   */
  lemma ReadExactly(isRsa: Format.KeyParser, sector: Bytes, record: Record)
    requires |sector| == SECTOR_SIZE
    ensures ReadRecord(isRsa, sector) == Some(record) <==> Holds(isRsa, sector, record)
  {
    hide ReadRecord, LaidOut, Format.DecodePayload, ReadBE;
    Pow256Values();
    if ReadRecord(isRsa, sector) == Some(record) {
      ReadsLaidOut(isRsa, sector);
      var n := ReadBE(sector[9..11]);
      var payload, filler := sector[11..11 + n], sector[15 + n..SECTOR_SIZE - 4];
      LaidOutReads(isRsa, sector, ReadBE(sector[5..9]), payload, filler);
      assert LaidOut(sector, record.generation, payload, filler);
    }
    if Holds(isRsa, sector, record) {
      var payload, filler :| LaidOut(sector, record.generation, payload, filler)
          && 0 < |payload| <= 1024 && Format.DecodePayload(isRsa, payload) == Some(record.values);
      LaidOutReads(isRsa, sector, record.generation, payload, filler);
    }
  }

  // ---- Damage ----

  /** The covered bytes of a record are damaged, but not its size field; nothing behind them is. */
  predicate Damaged(sector: Bytes, damaged: Bytes) {
    && |sector| == |damaged| == SECTOR_SIZE && damaged[9..11] == sector[9..11]
    && var n := ReadBE(sector[9..11]);
       n <= Format.MAX_PAYLOAD_SIZE && damaged[..11 + n] != sector[..11 + n] && damaged[11 + n..] == sector[11 + n..]
  }

  lemma SameChecksum(isRsa: Format.KeyParser, sector: Bytes, damaged: Bytes)
    requires Damaged(sector, damaged)
    requires ReadRecord(isRsa, sector).Some? && ReadRecord(isRsa, damaged).Some?
    ensures var n := ReadBE(sector[9..11]); Crc.Checksum(sector[..11 + n]) == Crc.Checksum(damaged[..11 + n])
  {
    hide Crc.Checksum, Format.DecodePayload, ReadBE;
    var n := ReadBE(sector[9..11]);
    assert sector[11 + n..15 + n] == sector[11 + n..][..4] && damaged[11 + n..15 + n] == damaged[11 + n..][..4];
  }

  /** A readable sector damaged within any 32 consecutive bits of header and payload is no record, */
  lemma BurstRejected(isRsa: Format.KeyParser, sector: Bytes, damaged: Bytes, from: nat)
    requires Damaged(sector, damaged) && ReadRecord(isRsa, sector).Some?
    requires var n := ReadBE(sector[9..11]); Crc.WithinBurst(sector[..11 + n], damaged[..11 + n], from)
    ensures ReadRecord(isRsa, damaged).None?
  {
    hide ReadRecord, Crc.Checksum, Crc.WithinBurst, ReadBE;
    var n := ReadBE(sector[9..11]);
    Crc.BurstDetected(sector[..11 + n], damaged[..11 + n], from);
    if ReadRecord(isRsa, damaged).Some? {
      SameChecksum(isRsa, sector, damaged);
    }
  }

  /** nor one damaged within four consecutive bytes of them, */
  lemma FourBytesRejected(isRsa: Format.KeyParser, sector: Bytes, damaged: Bytes, from: nat)
    requires Damaged(sector, damaged) && ReadRecord(isRsa, sector).Some?
    requires forall j :: 0 <= j < SECTOR_SIZE && damaged[j] != sector[j] ==> from <= j < from + 4
    ensures ReadRecord(isRsa, damaged).None?
  {
    hide ReadRecord, Crc.Checksum, ReadBE;
    var n := ReadBE(sector[9..11]);
    Crc.FourByteChangeDetected(sector[..11 + n], damaged[..11 + n], from);
    if ReadRecord(isRsa, damaged).Some? {
      SameChecksum(isRsa, sector, damaged);
    }
  }

  /** nor one whose checksum alone is changed. */
  lemma ChecksumChangeRejected(isRsa: Format.KeyParser, sector: Bytes, damaged: Bytes)
    requires |sector| == |damaged| == SECTOR_SIZE && ReadRecord(isRsa, sector).Some?
    requires var n := ReadBE(sector[9..11]);
             && n <= Format.MAX_PAYLOAD_SIZE
             && damaged[..11 + n] == sector[..11 + n] && damaged[11 + n..15 + n] != sector[11 + n..15 + n]
    ensures ReadRecord(isRsa, damaged).None?
  {
    hide Crc.Checksum, Format.DecodePayload, ReadBE;
    var n := ReadBE(sector[9..11]);
    assert damaged[9..11] == damaged[..11 + n][9..11] && sector[9..11] == sector[..11 + n][9..11];
    WriteOfReadBE(sector[11 + n..15 + n]);
    WriteOfReadBE(damaged[11 + n..15 + n]);
  }

  /** A write cut short over erased flash is not a record. */
  lemma TornIsInvalid(isRsa: Format.KeyParser, generation: nat, payload: Bytes, written: nat)
    requires |payload| <= Format.MAX_PAYLOAD_SIZE && written < SECTOR_SIZE
    ensures ReadRecord(isRsa, RecordSector(generation, payload)[..written] + Repeat(255, SECTOR_SIZE - written)).None?
  {
    hide Crc.Checksum, WriteBE, ReadBE, Format.DecodePayload, RecordSector;
    var sector := RecordSector(generation, payload)[..written] + Repeat(255, SECTOR_SIZE - written);
    assert sector[SECTOR_SIZE - 4..][3] == 255;
  }

  /**
   * What may happen to the sector that is not selected: it is left holding a committed record of the next generation,
   * or, by a write cut short, holding nothing valid. The keypad's own writer is an assumption of this model.
   */
  datatype Write = Committed(sector: Bytes) | Torn(sector: Bytes)

  datatype Flash = Flash(a: Bytes, b: Bytes)

  predicate Readable(flash: Flash) {
    |flash.a| == |flash.b| == SECTOR_SIZE
  }

  function Successor(generation: nat): nat {
    (generation + 1) % TWO32
  }

  predicate LegalWrite(isRsa: Format.KeyParser, selected: Record, w: Write) {
    && |w.sector| == SECTOR_SIZE
    && match ReadRecord(isRsa, w.sector)
       case None => w.Torn?
       case Some(record) => w.Committed? && record.generation == Successor(selected.generation)
  }

  function Overwrite(flash: Flash, selected: Copy, w: Write): Flash {
    if selected == A then flash.(b := w.sector) else flash.(a := w.sector)
  }

  /** The flash after writes, each against the copy that was selected at its time. */
  ghost predicate Writes(isRsa: Format.KeyParser, flash: Flash, writes: seq<Write>, end: Flash)
    requires Readable(flash)
    decreases |writes|
  {
    if writes == [] then end == flash
    else
      var s := Select(isRsa, flash.a, flash.b);
      && s.Configured?
      && LegalWrite(isRsa, s.record, writes[0])
      && Writes(isRsa, Overwrite(flash, s.copy, writes[0]), writes[1..], end)
  }

  /** The record committed last, or `first` when none was. */
  function LastCommitted(isRsa: Format.KeyParser, first: Record, writes: seq<Write>): Record
    decreases |writes|
  {
    if writes == [] then first else LastCommitted(isRsa, InForce(isRsa, first, writes[0]), writes[1..])
  }

  function InForce(isRsa: Format.KeyParser, before: Record, w: Write): Record {
    if |w.sector| == SECTOR_SIZE && ReadRecord(isRsa, w.sector).Some? then ReadRecord(isRsa, w.sector).value else before
  }

  lemma SuccessorIsNewer(generation: nat)
    requires generation < TWO32
    ensures Newer(Successor(generation), generation) && !Newer(generation, Successor(generation))
  {
    var next := Successor(generation);
    if generation + 1 < TWO32 {
      assert next == generation + 1;
      assert (generation - next) % TWO32 == TWO32 - 1;
    } else {
      assert next == 0 && (0 - generation) % TWO32 == 1;
      assert (generation - 0) % TWO32 == TWO32 - 1;
    }
  }

  lemma WriteSelects(isRsa: Format.KeyParser, flash: Flash, w: Write)
    requires Readable(flash) && Select(isRsa, flash.a, flash.b).Configured?
    requires LegalWrite(isRsa, Select(isRsa, flash.a, flash.b).record, w)
    ensures var s := Select(isRsa, flash.a, flash.b);
            var next := Overwrite(flash, s.copy, w);
            var t := Select(isRsa, next.a, next.b);
            && Readable(next) && t.Configured? && t.record == InForce(isRsa, s.record, w)
            && (t.copy == s.copy <==> w.Torn?)
  {
    hide ReadRecord, Newer;
    SuccessorIsNewer(Select(isRsa, flash.a, flash.b).record.generation);
  }

  /**
   * Over any number of writes, committed or torn, with the generation wrapping any number of times, the selected
   * record is the last one committed.
   */
  lemma {:induction false} LastCommittedSelected(isRsa: Format.KeyParser, flash: Flash, writes: seq<Write>, end: Flash)
    requires Readable(flash) && Select(isRsa, flash.a, flash.b).Configured?
    requires Writes(isRsa, flash, writes, end)
    ensures Readable(end)
    ensures var t := Select(isRsa, end.a, end.b);
            t.Configured? && t.record == LastCommitted(isRsa, Select(isRsa, flash.a, flash.b).record, writes)
    decreases |writes|
  {
    hide Select, LegalWrite, InForce, Overwrite;
    if writes != [] {
      var s := Select(isRsa, flash.a, flash.b);
      WriteSelects(isRsa, flash, writes[0]);
      LastCommittedSelected(isRsa, Overwrite(flash, s.copy, writes[0]), writes[1..], end);
    }
  }

  // ---- Ownership ----

  datatype Classification = Unconfigured(selection: Selection) | Owned(copy: Copy, record: Record, isLocal: bool)

  /** The key match of `classifyProvisioning`: identity, secret and pinned server key must all agree. */
  predicate Local(v: Format.Values, devices: Devices, serverPublicKey: Bytes) {
    && v.deviceId in devices
    && ValidSecret(devices[v.deviceId].secret)
    && FromHex(devices[v.deviceId].secret) == v.deviceSecret
    && serverPublicKey == v.serverPublicKey
  }

  function Classify(
      isRsa: Format.KeyParser, a: Bytes, b: Bytes, devices: Devices, serverPublicKey: Bytes): Option<Classification> {
    var s :- SelectProvisioning(isRsa, a, b);
    Some(if s.Configured? then Owned(s.copy, s.record, Local(s.record.values, devices, serverPublicKey))
        else Unconfigured(s))
  }
}
