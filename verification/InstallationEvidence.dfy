/**
 * src/provisioning/online.js: what a browser connection concludes about an installed keypad, and why that
 * conclusion always rests on one registration epoch of one authenticated keypad.
 */
module InstallationEvidence {
  import opened Prelude
  import Credentials
  import opened DeviceAuth
  import opened Protocol
  import opened ServerFrames
  import opened Sessions
  import opened SessionRegistry
  import opened SessionMoves
  import opened SessionRecords
  import opened SessionRuns
  import SessionOrigins

  /** The record `waitForInstallation` keeps of the keypad it waits for. */
  datatype Current = Current(hardware: Option<Bytes>, firmware: Option<Bytes>, verified: Option<Verified>)

  /** What one message about the awaited id does to the record. */
  function Noticed(current: Option<Current>, note: Note, id: Bytes): Option<Current> {
    match note
    case Presence(Str(x), status, meta) =>
      if x != id then current
      else if status.Connected? && meta.authenticated then Some(Current(meta.hardware, meta.firmware, meta.verified))
      else None
    case ConfigurationState(Str(x), v) =>
      if x == id && current.Some? then Some(current.value.(verified := Some(v))) else current
    case _ => current
  }

  function Fold(trace: seq<Entry>, id: Bytes): Option<Current> {
    if trace == [] then None
    else
      var rest, e := Fold(trace[..|trace| - 1], id), trace[|trace| - 1];
      if e.Told? then Noticed(rest, e.note, id) else rest
  }

  lemma FoldWith(trace: seq<Entry>, e: Entry, id: Bytes)
    ensures Fold(trace + [e], id) == if e.Told? then Noticed(Fold(trace, id), e.note, id) else Fold(trace, id)
  {
    assert (trace + [e])[..|trace|] == trace;
  }

  // ---- Evidence ----

  /** One authenticated keypad of this id proved this configuration within one epoch of this firmware and hardware. */
  ghost predicate Evidence(s: State, id: Bytes, firmware: Bytes, hardware: Bytes, v: Verified) {
    exists k :: k in s.conns && s.conns[k].authenticated && s.conns[k].deviceId == id
        && Proven(s.conns[k].trace, firmware, hardware, v)
  }

  ghost predicate Backed(s: State, current: Option<Current>, id: Bytes) {
    current.Some? && current.value.firmware.Some? && current.value.hardware.Some? && current.value.verified.Some? ==>
      Evidence(s, id, current.value.firmware.value, current.value.hardware.value, current.value.verified.value)
  }

  /** At no point of this record was the conclusion unfounded. */
  ghost predicate AllBacked(s: State, trace: seq<Entry>) {
    forall n, id :: 0 <= n <= |trace| ==> Backed(s, Fold(trace[..n], id), id)
  }

  /** If the record is about a registered keypad at all, it has that keypad's firmware and hardware. */
  predicate Matches(current: Option<Current>, conn: Conn) {
    current.Some? ==> current.value.firmware == OrNull(conn.firmware) && current.value.hardware == OrNull(conn.hardware)
  }

  ghost predicate Linked(s: State) {
    forall r, k :: r in s.live && HasFlag(s, r, True) && Registered(s, k) ==>
      Matches(Fold(s.conns[r].trace, s.conns[k].deviceId), s.conns[k])
  }

  ghost predicate Founded(s: State) {
    forall r :: r in s.conns && !s.conns[r].keypad ==> AllBacked(s, s.conns[r].trace)
  }

  // ---- Evidence is never lost ----

  /** Records only grow, and an authenticated keypad keeps its id. */
  ghost predicate Grown(s: State, t: State) {
    forall k :: k in s.conns && s.conns[k].keypad ==> k in t.conns && Extends(s.conns[k], t.conns[k])
  }

  predicate Extends(a: Conn, b: Conn) {
    a.trace <= b.trace && (a.authenticated ==> b.authenticated && b.deviceId == a.deviceId)
  }

  lemma EnrolExtends(conn: Conn, m: Move)
    requires m.Enrol?
    ensures Extends(conn, Apply(conn, m))
  {
    hide Encodable;
    var a := Enrolled(conn, m.version, m.firmware, m.hardware, m.at);
    var b := Accepting(a, m.firmware, m.accepted);
    var c := Asking(b, m.nonce);
    assert Extends(conn, a) && Extends(a, b) && Extends(b, c) && Extends(c, Proposing(c, m.offer));
  }

  lemma ApplyExtends(conn: Conn, m: Move, hmac: Hmac)
    requires Allowed(conn, m, hmac)
    ensures Extends(conn, Apply(conn, m))
  {
    if m.Enrol? {
      EnrolExtends(conn, m);
    } else {
      hide Proof, Encodable, HasId, Credentials.ToHex, Enrolled, Accepting, Asking;
    }
  }

  lemma MovedGrown(s: State, t: State, hmac: Hmac, a: Option<Arrival>)
    requires Moved(s, t, hmac, a)
    ensures Grown(s, t)
  {
    hide Allowed, Apply, Extends;
    forall k | k in s.conns && s.conns[k].keypad ensures k in t.conns && Extends(s.conns[k], t.conns[k]) {
      var m :| AllowedIn(s, k, m, hmac, a) && t.conns[k] == Apply(s.conns[k], m);
      ApplyExtends(s.conns[k], m, hmac);
    }
  }

  lemma EvidenceLasts(s: State, t: State, id: Bytes, firmware: Bytes, hardware: Bytes, v: Verified)
    requires Base(s) && Grown(s, t) && Evidence(s, id, firmware, hardware, v)
    ensures Evidence(t, id, firmware, hardware, v)
  {
    hide Proven;
    var k :| k in s.conns && s.conns[k].authenticated && s.conns[k].deviceId == id
        && Proven(s.conns[k].trace, firmware, hardware, v);
    assert RolesOk(s.conns[k]);
    ProvenLasts(s.conns[k].trace, t.conns[k].trace, firmware, hardware, v);
  }

  lemma BackedLasts(s: State, t: State, current: Option<Current>, id: Bytes)
    requires Base(s) && Grown(s, t) && Backed(s, current, id)
    ensures Backed(t, current, id)
  {
    hide Evidence, Grown;
    if current.Some? && current.value.firmware.Some? && current.value.hardware.Some? && current.value.verified.Some? {
      EvidenceLasts(s, t, id, current.value.firmware.value, current.value.hardware.value, current.value.verified.value);
    }
  }

  lemma AllBackedLasts(s: State, t: State, trace: seq<Entry>)
    requires Base(s) && Grown(s, t) && AllBacked(s, trace)
    ensures AllBacked(t, trace)
  {
    hide Backed, Grown, Fold;
    forall n, id | 0 <= n <= |trace| ensures Backed(t, Fold(trace[..n], id), id) {
      BackedLasts(s, t, Fold(trace[..n], id), id);
    }
  }

  lemma AllBackedWith(s: State, trace: seq<Entry>, e: Entry)
    requires AllBacked(s, trace) && forall id :: Backed(s, Fold(trace + [e], id), id)
    ensures AllBacked(s, trace + [e])
  {
    hide Backed, Fold;
    var more := trace + [e];
    forall n, id | 0 <= n <= |more| ensures Backed(s, Fold(more[..n], id), id) {
      if n <= |trace| {
        assert more[..n] == trace[..n];
      } else {
        assert more[..n] == more;
      }
    }
  }

  // ---- Steps that say nothing about presence or configuration ----

  predicate Neutral(e: Entry) {
    e.Told? ==> !e.note.Presence? && !e.note.ConfigurationState?
  }

  lemma NeutralFold(trace: seq<Entry>, e: Entry, id: Bytes)
    requires Neutral(e)
    ensures Fold(trace + [e], id) == Fold(trace, id)
  {
    FoldWith(trace, e, id);
  }

  lemma BackedNow(s: State, trace: seq<Entry>, id: Bytes)
    requires AllBacked(s, trace)
    ensures Backed(s, Fold(trace, id), id)
  {
    hide Backed, Fold;
    assert trace[..|trace|] == trace;
  }

  ghost predicate SameFirmware(s: State, t: State) {
    forall k :: k in s.conns && k in t.conns && Registered(t, k) ==>
      Registered(s, k) && t.conns[k].deviceId == s.conns[k].deviceId
      && t.conns[k].firmware == s.conns[k].firmware && t.conns[k].hardware == s.conns[k].hardware
  }

  /** Nothing the receivers are told changes the record they keep. */
  ghost predicate Aside(s: State, t: State) {
    && t.conns.Keys == s.conns.Keys && Grown(s, t) && SameFirmware(s, t)
    && (forall r :: r in t.live && HasFlag(t, r, True) ==> r in s.live && HasFlag(s, r, True))
    && forall k :: k in s.conns && !t.conns[k].keypad ==>
         && !s.conns[k].keypad
         && (t.conns[k].trace == s.conns[k].trace
             || exists e :: Neutral(e) && t.conns[k].trace == s.conns[k].trace + [e])
  }

  lemma AsideFounded(s: State, t: State)
    requires Base(s) && Founded(s) && Aside(s, t)
    ensures Founded(t)
  {
    hide Base, AllBacked, Grown, Neutral, SameFirmware;
    forall r | r in t.conns && !t.conns[r].keypad ensures AllBacked(t, t.conns[r].trace) {
      AllBackedLasts(s, t, s.conns[r].trace);
      if t.conns[r].trace != s.conns[r].trace {
        var e :| Neutral(e) && t.conns[r].trace == s.conns[r].trace + [e];
        forall id ensures Backed(t, Fold(s.conns[r].trace + [e], id), id) {
          NeutralFold(s.conns[r].trace, e, id);
          BackedNow(t, s.conns[r].trace, id);
        }
        AllBackedWith(t, s.conns[r].trace, e);
      }
    }
  }

  lemma AsideLinked(s: State, t: State)
    requires Base(t) && Linked(s) && Aside(s, t)
    ensures Linked(t)
  {
    hide Fold, Grown, Neutral;
    forall r, k | r in t.live && HasFlag(t, r, True) && Registered(t, k)
      ensures Matches(Fold(t.conns[r].trace, t.conns[k].deviceId), t.conns[k])
    {
      assert RolesOk(t.conns[r]);
      if t.conns[r].trace != s.conns[r].trace {
        var e :| Neutral(e) && t.conns[r].trace == s.conns[r].trace + [e];
        NeutralFold(s.conns[r].trace, e, t.conns[k].deviceId);
      }
    }
  }

  // ---- A keypad reports its configuration ----

  /** Every receiver hears `note` and nothing else, and the registered keypads stay who they are. */
  ghost predicate Heard(s: State, t: State, note: Note) {
    && t.conns.Keys == s.conns.Keys && Grown(s, t) && SameFirmware(s, t)
    && (forall r :: r in t.live && HasFlag(t, r, True) ==> r in s.live && HasFlag(s, r, True))
    && forall k :: k in s.conns && !t.conns[k].keypad ==> !s.conns[k].keypad && t.conns[k] == Hears(s, k, note)
  }

  /** The proof of a keypad is evidence for its own firmware and hardware. */
  lemma OwnEvidence(s: State, k: ConnId)
    requires k in s.conns && s.conns[k].authenticated && ProofOk(s.conns[k]) && s.conns[k].verified.Some?
    requires OrNull(s.conns[k].firmware).Some? && OrNull(s.conns[k].hardware).Some?
    ensures Evidence(s, s.conns[k].deviceId, OrNull(s.conns[k].firmware).value, OrNull(s.conns[k].hardware).value,
            s.conns[k].verified.value)
  {
    hide Proven;
  }

  lemma ReportBacked(s: State, t: State, k: ConnId, trace: seq<Entry>, v: Verified, id: Bytes)
    requires k in t.conns && t.conns[k].authenticated && ProofOk(t.conns[k]) && t.conns[k].verified == Some(v)
    requires AllBacked(t, trace) && Matches(Fold(trace, t.conns[k].deviceId), t.conns[k])
    ensures Backed(t, Fold(trace + [Told(ConfigurationState(Str(t.conns[k].deviceId), v))], id), id)
  {
    hide Fold, AllBacked, Evidence, ProofOk;
    FoldWith(trace, Told(ConfigurationState(Str(t.conns[k].deviceId), v)), id);
    BackedNow(t, trace, id);
    if OrNull(t.conns[k].firmware).Some? && OrNull(t.conns[k].hardware).Some? {
      OwnEvidence(t, k);
    }
  }

  lemma ReportFounded(s: State, t: State, k: ConnId, v: Verified)
    requires Base(s) && Founded(s) && Linked(s)
    requires k in t.conns && Heard(s, t, ConfigurationState(Str(t.conns[k].deviceId), v))
    requires Registered(t, k) && t.conns[k].authenticated && ProofOk(t.conns[k]) && t.conns[k].verified == Some(v)
    ensures Founded(t)
  {
    var note := ConfigurationState(Str(t.conns[k].deviceId), v);
    hide Base, AllBacked, Grown, ProofOk, Fold;
    forall r | r in t.conns && !t.conns[r].keypad ensures AllBacked(t, t.conns[r].trace) {
      AllBackedLasts(s, t, s.conns[r].trace);
      if t.conns[r].trace != s.conns[r].trace {
        assert r in s.live && HasFlag(s, r, True) && t.conns[r].trace == s.conns[r].trace + [Told(note)];
        assert Registered(s, k) && Matches(Fold(s.conns[r].trace, s.conns[k].deviceId), s.conns[k]);
        forall id ensures Backed(t, Fold(s.conns[r].trace + [Told(note)], id), id) {
          ReportBacked(s, t, k, s.conns[r].trace, v, id);
        }
        AllBackedWith(t, s.conns[r].trace, Told(note));
      }
    }
  }

  lemma ReportLinked(s: State, t: State, x: Value, v: Verified)
    requires Base(t) && Linked(s) && Heard(s, t, ConfigurationState(x, v))
    ensures Linked(t)
  {
    hide Fold, Grown;
    forall r, k | r in t.live && HasFlag(t, r, True) && Registered(t, k)
      ensures Matches(Fold(t.conns[r].trace, t.conns[k].deviceId), t.conns[k])
    {
      assert RolesOk(t.conns[r]);
      FoldWith(s.conns[r].trace, Told(ConfigurationState(x, v)), t.conns[k].deviceId);
    }
  }

  // ---- Somebody registers or leaves ----

  /** Every receiver hears one presence message, which carries no proof. */
  ghost predicate Announced(s: State, t: State, note: Note) {
    && note.Presence? && (note.status.Connected? && note.meta.authenticated ==> note.meta.verified.None?)
    && t.conns.Keys == s.conns.Keys && Grown(s, t)
    && (forall r :: r in t.live && HasFlag(t, r, True) ==>
          r in s.live && HasFlag(s, r, True) && t.conns[r].trace == s.conns[r].trace + [Told(note)])
    && forall k :: k in s.conns && !t.conns[k].keypad ==>
         && !s.conns[k].keypad
         && (t.conns[k].trace == s.conns[k].trace || t.conns[k].trace == s.conns[k].trace + [Told(note)])
  }

  lemma AnnouncedFounded(s: State, t: State, note: Note)
    requires Base(s) && Founded(s) && Announced(s, t, note)
    ensures Founded(t)
  {
    hide Base, AllBacked, Grown, Fold, Evidence;
    forall r | r in t.conns && !t.conns[r].keypad ensures AllBacked(t, t.conns[r].trace) {
      AllBackedLasts(s, t, s.conns[r].trace);
      if t.conns[r].trace != s.conns[r].trace {
        forall id ensures Backed(t, Fold(s.conns[r].trace + [Told(note)], id), id) {
          FoldWith(s.conns[r].trace, Told(note), id);
          BackedNow(t, s.conns[r].trace, id);
        }
        AllBackedWith(t, s.conns[r].trace, Told(note));
      }
    }
  }

  /** The announced keypad is the registered one; the others are unchanged. */
  predicate Fits(s: State, t: State, note: Note, k: ConnId)
    requires note.Presence? && k in t.conns
  {
    if note.id == Str(t.conns[k].deviceId) then
      note.status.Connected? && note.meta.authenticated ==>
        note.meta.firmware == OrNull(t.conns[k].firmware) && note.meta.hardware == OrNull(t.conns[k].hardware)
    else
      && Registered(s, k) && t.conns[k].deviceId == s.conns[k].deviceId
      && t.conns[k].firmware == s.conns[k].firmware && t.conns[k].hardware == s.conns[k].hardware
  }

  lemma AnnouncedLinked(s: State, t: State, note: Note)
    requires Linked(s) && Announced(s, t, note) && forall k :: Registered(t, k) ==> Fits(s, t, note, k)
    ensures Linked(t)
  {
    hide Fold, Grown;
    forall r, k | r in t.live && HasFlag(t, r, True) && Registered(t, k)
      ensures Matches(Fold(t.conns[r].trace, t.conns[k].deviceId), t.conns[k])
    {
      FoldWith(s.conns[r].trace, Told(note), t.conns[k].deviceId);
      assert Fits(s, t, note, k);
    }
  }

  // ---- A receiver joins ----

  lemma {:induction false} SnapshotBacked(s: State, ids: seq<ConnId>, trace: seq<Entry>)
    requires AllBacked(s, trace)
    requires forall k :: k in s.conns && s.conns[k].keypad ==> ProofOk(s.conns[k])
    requires forall k :: k in ids ==> k in s.conns && RolesOk(s.conns[k]) && s.conns[k].receiver.False?
    ensures AllBacked(s, trace + Snapshot(s, ids))
  {
    if ids == [] {
      assert trace + Snapshot(s, ids) == trace;
    } else {
      var front, k := ids[..|ids| - 1], ids[|ids| - 1];
      assert k in ids && forall j :: j in front ==> j in ids;
      SnapshotBacked(s, front, trace);
      var more, e := trace + Snapshot(s, front), Told(PresenceOf(s.conns[k], Connected));
      assert trace + Snapshot(s, ids) == more + [e];
      hide Fold, AllBacked, Snapshot;
      forall id ensures Backed(s, Fold(more + [e], id), id) {
        FoldWith(more, e, id);
        BackedNow(s, more, id);
        ListedBacked(s, k, id, Fold(more, id));
      }
      AllBackedWith(s, more, e);
    }
  }

  lemma ListedBacked(s: State, k: ConnId, id: Bytes, current: Option<Current>)
    requires k in s.conns && RolesOk(s.conns[k]) && s.conns[k].receiver.False?
    requires (s.conns[k].keypad ==> ProofOk(s.conns[k]))
    requires Backed(s, current, id)
    ensures Backed(s, Noticed(current, PresenceOf(s.conns[k], Connected), id), id)
  {
    hide Evidence, ProofOk;
    var conn := s.conns[k];
    if conn.authenticated && conn.verified.Some? && OrNull(conn.firmware).Some? && OrNull(conn.hardware).Some? {
      OwnEvidence(s, k);
    }
  }

  /** After a snapshot that lists the registered keypad `k`, the record is about `k` or about nobody. */
  lemma {:induction false} SnapshotMatches(s: State, ids: seq<ConnId>, trace: seq<Entry>, k: ConnId)
    requires Ok(s) && Registered(s, k) && k in ids
    requires forall j :: j in ids ==> j in s.live && HasFlag(s, j, False)
    ensures Matches(Fold(trace + Snapshot(s, ids), s.conns[k].deviceId), s.conns[k])
    decreases |ids|
  {
    var front, j, id := ids[..|ids| - 1], ids[|ids| - 1], s.conns[k].deviceId;
    assert j in ids && forall i :: i in front ==> i in ids;
    assert forall i :: i in ids ==> i in front || i == j;
    var more, e := trace + Snapshot(s, front), Told(PresenceOf(s.conns[j], Connected));
    assert trace + Snapshot(s, ids) == more + [e];
    FoldWith(more, e, id);
    assert RolesOk(s.conns[j]) && RolesOk(s.conns[k]);
    assert s.conns[j].authenticated && s.conns[j].deviceId == id ==> j == k by { hide Base, Fold; }
    hide Ok, Fold, Snapshot;
    if k in front {
      SnapshotMatches(s, front, trace, k);
    }
  }

  // ---- Every event ----

  ghost predicate Sound(s: State) {
    Founded(s) && Linked(s)
  }

  lemma AsideSound(s: State, t: State)
    requires Base(s) && Base(t) && Sound(s) && Aside(s, t)
    ensures Sound(t)
  {
    hide Aside, Founded, Linked;
    AsideFounded(s, t);
    AsideLinked(s, t);
  }

  /** A browser that turns receiver is nobody's keypad. */
  lemma TurningOk(s: State, c: ConnId, r: Reg)
    requires Ok(s) && Talking(s, c, false)
    ensures var put := Put(s, c, Registering(s.conns[c], r)); Ok(put) && Grown(s, put)
  {
    assert RolesOk(s.conns[c]);
  }

  lemma JoinedBacked(s: State, put: State, c: ConnId, ids: seq<ConnId>)
    requires Base(s) && c in s.conns && AllBacked(s, s.conns[c].trace) && Grown(s, put)
    requires forall k :: k in put.conns && put.conns[k].keypad ==> ProofOk(put.conns[k])
    requires forall k :: k in ids ==> k in put.conns && RolesOk(put.conns[k]) && put.conns[k].receiver.False?
    ensures AllBacked(put, s.conns[c].trace + [Joined] + Snapshot(put, ids))
  {
    hide Snapshot, Fold, Backed, AllBacked, Base, Grown, ProofOk, RolesOk;
    var before := s.conns[c].trace + [Joined];
    AllBackedLasts(s, put, s.conns[c].trace);
    forall id ensures Backed(put, Fold(before, id), id) {
      FoldWith(s.conns[c].trace, Joined, id);
      BackedNow(put, s.conns[c].trace, id);
    }
    AllBackedWith(put, s.conns[c].trace, Joined);
    SnapshotBacked(put, ids, before);
  }

  lemma JoinedSound(s: State, c: ConnId, r: Reg)
    requires Ok(s) && Sound(s) && Talking(s, c, false) && IsTruthy(r.receiver)
    requires forall k :: k in s.conns && s.conns[k].keypad ==> ProofOk(s.conns[k])
    ensures Sound(Register(s, c, r))
  {
    hide Register, Snapshot, Controllers, Fold, AllBacked, ProofOk, Matches, Base, Unique, Grown, Founded, Linked,
         RolesOk;
    var t, put := Register(s, c, r), Put(s, c, Registering(s.conns[c], r));
    var ids := Controllers(put);
    assert RolesOk(s.conns[c]) && c in s.live && !s.conns[c].authenticated by { TalkingBrowser(s, c); }
    RegisterReceiverEffect(s, c, r);
    TurningOk(s, c, r);
    SnapshotIds(put);
    assert Grown(put, t) && Grown(s, t) by { JoinedGrown(s, put, t, c, r); }
    assert AllBacked(s, s.conns[c].trace) by { FoundedOne(s, c); }
    JoinedBacked(s, put, c, ids);
    AllBackedLasts(put, t, s.conns[c].trace + [Joined] + Snapshot(put, ids));
    JoinedFounded(s, t, c);
    JoinedMatches(s, put, t, c, ids);
    JoinedLinked(s, t, c);
  }

  lemma SnapshotIds(s: State)
    requires Base(s)
    ensures forall k :: k in Controllers(s) ==>
              k in s.live && k in s.conns && HasFlag(s, k, False) && RolesOk(s.conns[k])
  {
    hide RolesOk;
  }

  lemma JoinedGrown(s: State, put: State, t: State, c: ConnId, r: Reg)
    requires c in s.conns && !s.conns[c].keypad && put == Put(s, c, Registering(s.conns[c], r))
    requires t.conns.Keys == s.conns.Keys
    requires forall k :: k in s.conns && k != c ==> t.conns[k] == s.conns[k]
    ensures Grown(put, t) && Grown(s, t)
  {}

  lemma FoundedOne(s: State, c: ConnId)
    requires Founded(s) && c in s.conns && !s.conns[c].keypad
    ensures AllBacked(s, s.conns[c].trace)
  {
    hide AllBacked;
  }

  lemma JoinedMatches(s: State, put: State, t: State, c: ConnId, ids: seq<ConnId>)
    requires Ok(put) && c in s.conns && put.live == t.live && t.conns.Keys == put.conns.Keys && c in t.conns
    requires !t.conns[c].keypad
    requires ids == Controllers(put) && t.conns[c].trace == s.conns[c].trace + [Joined] + Snapshot(put, ids)
    requires forall k :: k in put.conns && k != c ==> t.conns[k] == put.conns[k]
    ensures forall k :: Registered(t, k) ==> Matches(Fold(t.conns[c].trace, t.conns[k].deviceId), t.conns[k])
  {
    assert forall k :: k in ids <==> k in put.live && HasFlag(put, k, False);
    hide Snapshot, Controllers, Fold, Matches, Ok;
    forall k | Registered(t, k) ensures Matches(Fold(t.conns[c].trace, t.conns[k].deviceId), t.conns[k]) {
      SnapshotMatches(put, ids, s.conns[c].trace + [Joined], k);
    }
  }

  lemma JoinedFounded(s: State, t: State, c: ConnId)
    requires Base(s) && Founded(s) && t.conns.Keys == s.conns.Keys && Grown(s, t) && c in t.conns
    requires AllBacked(t, t.conns[c].trace)
    requires forall k :: k in s.conns && k != c ==> t.conns[k] == s.conns[k]
    ensures Founded(t)
  {
    hide AllBacked, Grown, Base;
    forall r | r in t.conns && !t.conns[r].keypad ensures AllBacked(t, t.conns[r].trace) {
      if r != c {
        AllBackedLasts(s, t, s.conns[r].trace);
      }
    }
  }

  lemma JoinedLinked(s: State, t: State, c: ConnId)
    requires Linked(s) && t.live == s.live && t.conns.Keys == s.conns.Keys && c in s.conns && !t.conns[c].keypad
    requires forall k :: k in s.conns && k != c ==> t.conns[k] == s.conns[k]
    requires forall k :: Registered(t, k) ==> Matches(Fold(t.conns[c].trace, t.conns[k].deviceId), t.conns[k])
    ensures Linked(t)
  {
    hide Fold;
  }

  lemma BrowserControllerSound(s: State, c: ConnId, r: Reg)
    requires Ok(s) && Sound(s) && Talking(s, c, false) && !IsTruthy(r.receiver)
    ensures Sound(Register(s, c, r))
  {
    var t, note := Register(s, c, r), PresenceOf(Registering(s.conns[c], r), r.status);
    assert RolesOk(s.conns[c]);
    RegisterControllerEffect(s, c, r);
    assert !note.meta.authenticated && !t.conns[c].receiver.True? && t.conns[c].trace == s.conns[c].trace
           && !t.conns[c].keypad;
    hide Register, PresenceOf, Registering, Evicted, Hears, Founded, Linked;
    forall k | k in s.conns && k != c
      ensures SameRole(s.conns[k], t.conns[k]) && (s.conns[k].keypad ==> t.conns[k] == s.conns[k])
      ensures k in t.live && HasFlag(t, k, True) ==> t.conns[k].trace == s.conns[k].trace + [Told(note)]
      ensures t.conns[k].trace == s.conns[k].trace || t.conns[k].trace == s.conns[k].trace + [Told(note)]
    {
      EvictsNobody(s, c, r, k);
      SilentRole(s, k, note);
      HearsTraces(s, k, note);
      if s.conns[k].keypad {
        Deaf(s, k, note);
      }
    }
    AnnouncedFounded(s, t, note);
    AnnouncedLinked(s, t, note);
  }

  predicate SameEnrolment(a: Conn, b: Conn) {
    && b.firmware == a.firmware && b.hardware == a.hardware && b.deviceId == a.deviceId && b.keypad == a.keypad
    && b.receiver == a.receiver && b.controllerId == a.controllerId && b.authenticated == a.authenticated
  }

  lemma EnrolFields(conn: Conn, m: Move)
    requires m.Enrol?
    ensures SameEnrolment(Enrolled(conn, m.version, m.firmware, m.hardware, m.at), Apply(conn, m))
  {
    hide Encodable, Enrolled;
    var a := Enrolled(conn, m.version, m.firmware, m.hardware, m.at);
    var b := Accepting(a, m.firmware, m.accepted);
    var c := Asking(b, m.nonce);
    assert SameEnrolment(a, b) && SameEnrolment(b, c) && SameEnrolment(c, Proposing(c, m.offer));
  }

  /** What a keypad's registration looks like to everyone else. */
  lemma KeypadAnnounced(
      s: State, c: ConnId, version: nat, firmware: Bytes, hardware: Bytes, env: Environment, hmac: Hmac)
    requires Ok(s) && Talking(s, c, true) && s.conns[c].authenticated && s.conns[c].deviceId in s.store
    requires version == s.conns[c].version
    ensures var t, conn := RegisterKeypad(s, c, version, firmware, hardware, env),
            Enrolled(s.conns[c], version, firmware, hardware, env.at);
            && Announced(s, t, PresenceOf(conn, Connected))
            && SameEnrolment(conn, t.conns[c])
            && c in t.live && (forall k :: k in t.live ==> k in s.live)
            && forall k :: k in s.conns && k != c ==>
                 SameRole(s.conns[k], t.conns[k])
                 && (s.conns[k].keypad ==>
                      t.conns[k].firmware == s.conns[k].firmware && t.conns[k].hardware == s.conns[k].hardware)
  {
    hide RegisterKeypad, PresenceOf, Enrolled, Apply, Evicted, Hears, Moved, Grown, Ok, Base, SameRole;
    var conn, t := s.conns[c], RegisterKeypad(s, c, version, firmware, hardware, env);
    var r, m := Dispatched(conn, firmware, hardware), RegistrationMove(s, conn, version, firmware, hardware, env);
    var note := PresenceOf(Enrolled(conn, version, firmware, hardware, env.at), Connected);
    RegisterKeypadEffect(s, c, version, firmware, hardware, env);
    RegisterKeypadMoves(s, c, version, firmware, hardware, env, hmac);
    MovedGrown(s, t, hmac, Some(Arrival(c, version, Registration(firmware, hardware), env.at, env.loaded)));
    EnrolFields(conn, m);
    EnrolledNote(conn, version, firmware, hardware, env.at);
    NeverEvictsItself(s, c, r);
    OkBase(s);
    LiveKeypad(s, c);
    forall k | k in s.conns && k != c
      ensures SameRole(s.conns[k], t.conns[k])
      ensures s.conns[k].keypad ==>
                t.conns[k].firmware == s.conns[k].firmware && t.conns[k].hardware == s.conns[k].hardware
      ensures k in t.live && HasFlag(t, k, True) ==>
                HasFlag(s, k, True) && t.conns[k].trace == s.conns[k].trace + [Told(note)]
      ensures t.conns[k].trace == s.conns[k].trace || t.conns[k].trace == s.conns[k].trace + [Told(note)]
      ensures t.conns[k].keypad == s.conns[k].keypad
    {
      OtherHears(s, k, note, t.conns[k]);
    }
  }

  /** What a step that closes some connections and tells the receivers something does to one that is not stepping. */
  lemma OtherHears(s: State, k: ConnId, note: Note, after: Conn)
    requires Base(s) && k in s.conns
    requires after == s.conns[k].(open := false) || after == Hears(s, k, note)
    ensures SameRole(s.conns[k], after)
    ensures s.conns[k].keypad ==> after.firmware == s.conns[k].firmware && after.hardware == s.conns[k].hardware
    ensures after == Hears(s, k, note) && k in s.live && after.receiver.True? ==>
              after.trace == s.conns[k].trace + [Told(note)]
    ensures after.trace == s.conns[k].trace || after.trace == s.conns[k].trace + [Told(note)]
    ensures after.keypad == s.conns[k].keypad && after.receiver == s.conns[k].receiver
  {}

  lemma EnrolledNote(conn: Conn, version: nat, firmware: Bytes, hardware: Bytes, at: int)
    requires conn.authenticated
    ensures var enrolled := Enrolled(conn, version, firmware, hardware, at);
            && PresenceOf(enrolled, Connected) ==
               Presence(Str(conn.deviceId), Connected,
                   Meta(true, OrNull(Some(firmware)), OrNull(Some(hardware)), None, None))
            && enrolled.receiver.False? && enrolled.keypad == conn.keypad && enrolled.deviceId == conn.deviceId
            && enrolled.firmware == Some(firmware) && enrolled.hardware == Some(hardware) && enrolled.authenticated
  {}

  lemma LiveKeypad(s: State, c: ConnId)
    requires Base(s) && Talking(s, c, true) && s.conns[c].authenticated
    ensures c in s.live
  {}

  lemma KeypadRegistrationSound(
      s: State, c: ConnId, version: nat, firmware: Bytes, hardware: Bytes, env: Environment, hmac: Hmac)
    requires Ok(s) && Sound(s) && Talking(s, c, true) && s.conns[c].authenticated && s.conns[c].deviceId in s.store
    requires version == s.conns[c].version
    ensures Sound(RegisterKeypad(s, c, version, firmware, hardware, env))
  {
    var conn, t := s.conns[c], RegisterKeypad(s, c, version, firmware, hardware, env);
    var enrolled := Enrolled(conn, version, firmware, hardware, env.at);
    var note := PresenceOf(enrolled, Connected);
    KeypadAnnounced(s, c, version, firmware, hardware, env, hmac);
    RegisterKeypadOk(s, c, version, firmware, hardware, env);
    EnrolledNote(conn, version, firmware, hardware, env.at);
    hide RegisterKeypad, PresenceOf, Enrolled, Founded, Linked, Announced;
    AnnouncedFounded(s, t, note);
    forall k | Registered(t, k) ensures Fits(s, t, note, k) {
      assert Registered(t, c);
    }
    AnnouncedLinked(s, t, note);
  }

  /** A move of one keypad that leaves its registration alone, with at most one neutral message to the receivers. */
  lemma OwnAside(s: State, t: State, c: ConnId, m: Move, note: Note, hmac: Hmac)
    requires Base(s) && c in s.conns && s.conns[c].keypad && Allowed(s.conns[c], m, hmac) && Neutral(Told(note))
    requires !Registers(m)
    requires t == Put(s, c, Apply(s.conns[c], m)) || t == Broadcast(Put(s, c, Apply(s.conns[c], m)), note)
    ensures Aside(s, t)
  {
    hide Broadcast, Allowed, Apply, Hears, Moved, Grown, SameFirmware, RolesOk, Base, SameEnrolment;
    var put, told := Put(s, c, Apply(s.conns[c], m)), Broadcast(Put(s, c, Apply(s.conns[c], m)), note);
    assert RolesOk(s.conns[c]) by { BaseRoles(s, c); }
    OwnEnrolment(s.conns[c], m);
    KeypadFlag(s.conns[c], Apply(s.conns[c], m));
    BroadcastEffect(put, note);
    MovesAndTells(s, c, m, note, hmac, Bringing(c, m));
    MovedGrown(s, told, hmac, Bringing(c, m));
    forall k | k in s.conns
      ensures SameEnrolment(s.conns[k], put.conns[k]) && SameEnrolment(s.conns[k], told.conns[k])
      ensures k != c ==>
                told.conns[k].trace == s.conns[k].trace || told.conns[k].trace == s.conns[k].trace + [Told(note)]
    {
      HearsTraces(put, k, note);
      HearsEnrolment(put, k, note);
      SelfEnrolment(s.conns[k]);
    }
    EnrolmentAside(s, put);
    EnrolmentAside(s, told);
    assert Grown(s, put) by { MovesOne(s, put, c, m, hmac, Bringing(c, m)); MovedGrown(s, put, hmac, Bringing(c, m)); }
  }

  /** While nobody registers, the registered keypads keep their firmware. */
  lemma EnrolmentAside(s: State, t: State)
    requires t.conns.Keys == s.conns.Keys && t.live == s.live
    requires forall k :: k in s.conns ==> SameEnrolment(s.conns[k], t.conns[k])
    ensures SameFirmware(s, t) && forall r :: HasFlag(t, r, True) ==> HasFlag(s, r, True)
    ensures forall k :: k in s.conns ==> t.conns[k].keypad == s.conns[k].keypad
  {}

  lemma SelfEnrolment(conn: Conn)
    ensures SameEnrolment(conn, conn)
  {}

  lemma BaseRoles(s: State, c: ConnId)
    requires Base(s) && c in s.conns
    ensures RolesOk(s.conns[c])
  {}

  lemma KeypadFlag(conn: Conn, after: Conn)
    requires RolesOk(conn) && conn.keypad && SameEnrolment(conn, after)
    ensures !after.receiver.True? && after.keypad
  {}

  lemma HearsEnrolment(s: State, k: ConnId, note: Note)
    requires k in s.conns
    ensures SameEnrolment(s.conns[k], Hears(s, k, note))
  {}

  lemma OwnEnrolment(conn: Conn, m: Move)
    requires !Registers(m)
    ensures SameEnrolment(conn, Apply(conn, m))
  {
    hide Apply;
    SteadyMove(conn, m);
  }

  lemma OwnSound(s: State, t: State, c: ConnId, m: Move, note: Note, hmac: Hmac)
    requires Base(s) && Sound(s) && c in s.conns && s.conns[c].keypad && Allowed(s.conns[c], m, hmac)
    requires Neutral(Told(note))
    requires !Registers(m)
    requires t == Put(s, c, Apply(s.conns[c], m)) || t == Broadcast(Put(s, c, Apply(s.conns[c], m)), note)
    requires Base(t)
    ensures Sound(t)
  {
    hide Broadcast, Allowed, Apply, Base, Sound, Aside;
    OwnAside(s, t, c, m, note, hmac);
    AsideSound(s, t);
  }

  lemma AuthenticateAside(s: State, c: ConnId, version: nat, id: Bytes, mac: Bytes, env: Environment, hmac: Hmac)
    requires Ok(s) && Talking(s, c, true) && !s.conns[c].authenticated && id != []
    ensures Aside(s, Authenticate(s, c, version, id, mac, env, hmac))
  {
    hide Authenticate, Grown, Neutral, Moved, Ok;
    var t := Authenticate(s, c, version, id, mac, env, hmac);
    AuthenticateMoves(s, c, version, id, mac, env, hmac);
    AuthenticateFrame(s, c, version, id, mac, env, hmac);
    MovedGrown(s, t, hmac, Some(Arrival(c, version, AuthResponse(id, mac), env.at, env.loaded)));
  }

  /** An accepted report: every receiver is told the keypad's new proof. */
  lemma ReportHeard(s: State, c: ConnId, version: nat, nonce: Bytes, digest: Bytes, env: Environment, hmac: Hmac)
    requires Ok(s) && c in s.conns && s.conns[c].keypad && s.conns[c].authenticated
    requires HasId(s.conns[c]) && s.conns[c].query == Some(nonce)
    requires version == s.conns[c].version
    ensures var t := Report(s, c, version, nonce, digest, env);
            var v := Verified(Credentials.ToHex(digest), env.at);
            && Heard(s, t, ConfigurationState(Str(s.conns[c].deviceId), v))
            && t.conns[c] == Apply(s.conns[c], Prove(version, nonce, digest, env.at)) && t.live == s.live
  {
    hide Broadcast, Apply, Hears, Moved, Grown, SameFirmware, Ok, Report, Credentials.ToHex, HasId, Allowed,
         SameEnrolment, RolesOk;
    var conn, m, t := s.conns[c], Prove(version, nonce, digest, env.at), Report(s, c, version, nonce, digest, env);
    var note := ConfigurationState(Str(conn.deviceId), Verified(Credentials.ToHex(digest), env.at));
    var put := Put(s, c, Apply(conn, m));
    ReportEffect(s, c, version, nonce, digest, env);
    OkBase(s);
    OwnEnrolment(conn, m);
    BaseRoles(s, c);
    KeypadFlag(conn, Apply(conn, m));
    ProveAllowed(conn, m, hmac);
    BroadcastEffect(put, note);
    MovesAndTells(s, c, m, note, hmac, Bringing(c, m));
    MovedGrown(s, t, hmac, Bringing(c, m));
    forall k | k in s.conns
      ensures SameEnrolment(s.conns[k], t.conns[k]) && (k != c ==> t.conns[k] == Hears(s, k, note))
    {
      if k == c {
        KeypadDeaf(put, c, note);
      } else {
        HearsFrame(s, put, k, note);
        HearsEnrolment(s, k, note);
      }
    }
    EnrolmentAside(s, t);
  }

  lemma ProveAllowed(conn: Conn, m: Move, hmac: Hmac)
    requires m.Prove? && conn.authenticated
    requires m.version == conn.version
    ensures Allowed(conn, m, hmac)
  {}

  lemma ReportSound(s: State, c: ConnId, version: nat, nonce: Bytes, digest: Bytes, env: Environment, hmac: Hmac)
    requires Inv(s, hmac) && Sound(s) && Talking(s, c, true) && s.conns[c].authenticated
    requires version == s.conns[c].version
    ensures Sound(Report(s, c, version, nonce, digest, env))
  {
    hide Broadcast, Apply, Report, Credentials.ToHex, RecordOk, Heard, Founded, Linked, RolesOk;
    var conn, m, t := s.conns[c], Prove(version, nonce, digest, env.at), Report(s, c, version, nonce, digest, env);
    var v := Verified(Credentials.ToHex(digest), env.at);
    var note := ConfigurationState(Str(conn.deviceId), v);
    ReportEffect(s, c, version, nonce, digest, env);
    OwnMove(s, t, c, m, note, hmac, Bringing(c, m));
    if HasId(conn) && conn.query == Some(nonce) {
      ReportHeard(s, c, version, nonce, digest, env, hmac);
      OwnEnrolment(conn, m);
      assert ProofOk(t.conns[c]) by { RecordMove(conn, m, hmac); RecordProof(t.conns[c], hmac); }
      assert t.conns[c].verified == Some(v) by { ProvenField(conn, m); }
      assert conn.receiver.False? by { NamedRole(conn); }
      LiveKeypad(s, c);
      ReportFounded(s, t, c, v);
      ReportLinked(s, t, Str(conn.deviceId), v);
    } else {
      OwnSound(s, t, c, m, Login([]), hmac);
    }
  }

  lemma RecordProof(conn: Conn, hmac: Hmac)
    requires RecordOk(conn, hmac)
    ensures ProofOk(conn)
  {}

  lemma ProvenField(conn: Conn, m: Move)
    requires m.Prove? && HasId(conn) && conn.query == Some(m.nonce)
    ensures Apply(conn, m).verified == Some(Verified(Credentials.ToHex(m.digest), m.at))
  {}

  lemma NamedRole(conn: Conn)
    requires RolesOk(conn) && conn.keypad && HasId(conn)
    ensures conn.receiver.False?
  {}

  lemma PlainMoves(conn: Conn, version: nat, at: int)
    ensures Apply(conn, Close) == conn.(open := false)
    ensures forall message :: Apply(conn, Press(version, message, at)) ==
              With(conn, Received(version, message, at, true))
  {}

  lemma FrameSound(s: State, c: ConnId, binary: bool, data: Bytes, env: Environment, hmac: Hmac)
    requires Inv(s, hmac) && Sound(s) && Talking(s, c, true)
    ensures Sound(Frame(s, c, binary, data, env, hmac))
  {
    hide Sound, Delivered, Authenticate, RegisterKeypad, AcknowledgeLeds, Report, Broadcast, Encodable, Base, Unique,
         Apply, Aside, RecordOk, Moved, SameKinds;
    var conn, t := s.conns[c], Frame(s, c, binary, data, env, hmac);
    FrameMoves(s, c, binary, data, env, hmac);
    var quiet := Login([]);
    PlainMoves(conn, conn.version, env.at);
    if t == Terminate(s, c) {
      OwnSound(s, t, c, Close, quiet, hmac);
    } else {
      var (version, message) := Delivered(data).value;
      DeliveredId(data);
      match message {
        case AuthResponse(id, mac) =>
          AuthenticateAside(s, c, version, id, mac, env, hmac);
          AsideSound(s, t);
        case Registration(firmware, hardware) =>
          if conn.deviceId in s.store {
            KeypadRegistrationSound(s, c, version, firmware, hardware, env, hmac);
          } else {
            RegisterUnknownEffect(s, c, version, firmware, hardware, env);
            OwnSound(s, t, c, Lapse(version, firmware, hardware, env.at), quiet, hmac);
          }
        case LedApplied(nonce) =>
          AcknowledgeEffect(s, c, version, nonce, env);
          OwnSound(s, t, c, Acknowledge(version, nonce, env.at),
                   LedState(Str(conn.deviceId), if conn.pending.Some? then Some(conn.pending.value.leds) else None),
                       hmac);
        case ConfigurationReport(nonce, digest) => ReportSound(s, c, version, nonce, digest, env, hmac);
        case KeyEvent(_, _) =>
          OwnSound(s, t, c, Press(version, message, env.at), Pressed(Str(conn.deviceId), message.key, message.state),
              hmac);
      }
    }
  }

  // ---- Commands and departures ----

  lemma CommandSound(s: State, k: ConnId, leds: Leds, nonce: Bytes, hmac: Hmac)
    requires Ok(s) && Sound(s) && Commandable(s, k)
    ensures Sound(Command(s, k, leds, nonce))
  {
    hide Command, Hears, Apply, Sound, Grown, SameFirmware, SameEnrolment, Moved, Base, Unique;
    var t, note, m := Command(s, k, leds, nonce), LedState(s.conns[k].controllerId, None), Light(nonce, leds);
    CommandEffect(s, k, leds, nonce);
    CommandMoves(s, k, leds, nonce, hmac);
    MovedGrown(s, t, hmac, None);
    OwnEnrolment(s.conns[k], m);
    BaseRoles(s, k);
    KeypadFlag(s.conns[k], t.conns[k]);
    forall j | j in s.conns
      ensures SameEnrolment(s.conns[j], t.conns[j])
      ensures j != k ==> t.conns[j].trace == s.conns[j].trace || t.conns[j].trace == s.conns[j].trace + [Told(note)]
    {
      HearsTraces(s, j, note);
      HearsEnrolment(s, j, note);
    }
    EnrolmentAside(s, t);
    assert Neutral(Told(note));
    AsideSound(s, t);
  }

  lemma LogEffect(s: State, k: ConnId, e: Entry)
    ensures var t := Log(s, k, e);
            && t.live == s.live && t.conns.Keys == s.conns.Keys && Grown(s, t)
            && forall j :: j in s.conns ==>
                 SameEnrolment(s.conns[j], t.conns[j])
                 && (t.conns[j].trace == s.conns[j].trace || t.conns[j].trace == s.conns[j].trace + [e])
  {}

  lemma LogBase(s: State, k: ConnId, e: Entry)
    requires Base(s)
    ensures Base(Log(s, k, e))
  {}

  lemma LogSound(s: State, k: ConnId, e: Entry)
    requires Base(s) && Sound(s) && Neutral(e)
    ensures Sound(Log(s, k, e))
  {
    hide Sound, Neutral, RolesOk, Base, SameFirmware, Grown;
    var t := Log(s, k, e);
    LogEffect(s, k, e);
    EnrolmentAside(s, t);
    LogBase(s, k, e);
    AsideSound(s, t);
  }

  lemma {:induction false} ConfigureSound(
      s: State, targets: seq<ConnId>, leds: Option<Leds>, nonces: seq<Bytes>, hmac: Hmac)
    requires Inv(s, hmac) && Sound(s) && Targets(s, targets)
    ensures Sound(Configure(s, targets, leds, nonces))
    decreases |targets|
  {
    if targets != [] && targets[0] in s.conns {
      var k, conn := targets[0], s.conns[targets[0]];
      assert RolesOk(conn) && HasFlag(s, k, False);
      hide Sound, RecordOk, Minor, Targets, Command, Channels, KnownVersion, Log, Base, Unique;
      var t, rest := s, nonces;
      if conn.keypad && conn.version == CONFIGURATION_VERSION {
        if Sendable(leds) && nonces != [] {
          t, rest := Command(s, k, leds.value, nonces[0]), nonces[1..];
          CommandInv(s, k, leds.value, nonces[0], hmac);
          CommandSound(s, k, leds.value, nonces[0], hmac);
        }
      } else if conn.keypad {
        if Sendable(leds) && KnownVersion(conn.version) {
          t := Log(s, k, Sent(Configuration(conn.version, leds.value)));
          LogOldMoves(s, k, leds.value, hmac);
          LogMinor(s, k, Sent(Configuration(conn.version, leds.value)));
          LogSound(s, k, Sent(Configuration(conn.version, leds.value)));
        }
      } else {
        t := Log(s, k, Told(Forwarded(conn.controllerId, leds)));
        LogBrowser(s, k, Told(Forwarded(conn.controllerId, leds)), hmac);
        LogMinor(s, k, Told(Forwarded(conn.controllerId, leds)));
        LogSound(s, k, Told(Forwarded(conn.controllerId, leds)));
      }
      if Configure(s, targets, leds, nonces) != s {
        TargetsStay(s, t, targets);
        ConfigureSound(t, targets[1..], leds, rest, hmac);
      }
    }
  }

  lemma BroadcastSound(s: State, note: Note)
    requires Base(s) && Sound(s) && Neutral(Told(note))
    ensures Sound(Broadcast(s, note))
  {
    hide Broadcast, Sound, Neutral, Hears, SameEnrolment, SameFirmware;
    var t := Broadcast(s, note);
    BroadcastEffect(s, note);
    forall k | k in s.conns ensures OtherTells(s, k, note, t.conns[k]) && SameEnrolment(s.conns[k], t.conns[k]) {
      OtherHears(s, k, note, t.conns[k]);
      HearsEnrolment(s, k, note);
      if s.conns[k].keypad {
        Deaf(s, k, note);
      }
    }
    EnrolmentAside(s, t);
    assert Base(t) && Grown(s, t);
    assert forall r :: r in t.live && HasFlag(t, r, True) ==> r in s.live && HasFlag(s, r, True);
    AsideSound(s, t);
  }

  /** What a broadcast leaves of a connection, for those who only care who it is. */
  predicate OtherTells(s: State, k: ConnId, note: Note, after: Conn)
    requires k in s.conns
  {
    && SameRole(s.conns[k], after) && (s.conns[k].keypad ==> after == s.conns[k] && after.open == s.conns[k].open)
    && (after.trace == s.conns[k].trace || after.trace == s.conns[k].trace + [Told(note)])
  }

  lemma TerminateSound(s: State, c: ConnId)
    requires Base(s) && Sound(s)
    ensures Sound(Terminate(s, c)) && Base(Terminate(s, c)) && Terminate(s, c).live == s.live
  {
    hide Sound, RolesOk;
    var t := Terminate(s, c);
    assert forall k :: k in s.conns ==> t.conns[k] == s.conns[k] || t.conns[k] == s.conns[k].(open := false);
    assert Base(t) by { TerminateBase(s, c); }
    assert Aside(s, t);
    AsideSound(s, t);
  }

  lemma TerminateBase(s: State, c: ConnId)
    requires Base(s)
    ensures Base(Terminate(s, c))
  {}

  lemma RemoveSound(s: State, c: ConnId)
    requires Base(s) && Sound(s) && c in s.live
    ensures Sound(Remove(s, c))
  {
    hide Remove, Hears, PresenceOf, Announces, Without, Sound, RolesOk, Founded, Linked;
    var t, gone, note := Remove(s, c), s.(live := Without(s.live, c)), PresenceOf(s.conns[c], Disconnected);
    RemoveEffect(s, c);
    DisconnectNote(s.conns[c]);
    assert forall k :: k in gone.live ==> k in s.live by { WithoutLess(s.live, c); }
    GoneFounded(s, gone);
    if Announces(s, c) {
      forall k | k in s.conns
        ensures SameEnrolment(s.conns[k], t.conns[k]) && (s.conns[k].keypad ==> t.conns[k] == s.conns[k])
        ensures k in t.live && HasFlag(t, k, True) ==> t.conns[k].trace == s.conns[k].trace + [Told(note)]
        ensures t.conns[k].trace == s.conns[k].trace || t.conns[k].trace == s.conns[k].trace + [Told(note)]
      {
        HearsTraces(gone, k, note);
        HearsEnrolment(gone, k, note);
        if s.conns[k].keypad {
          BaseRoles(s, k);
          KeypadFlag(s.conns[k], s.conns[k]);
          KeypadDeaf(gone, k, note);
        }
      }
      AnnouncedFounded(s, t, note);
      AnnouncedLinked(s, t, note);
      SoundIs(t);
    } else {
      assert t == gone;
    }
  }

  lemma WithoutLess(ids: seq<ConnId>, c: ConnId)
    ensures forall k :: k in Without(ids, c) ==> k in ids
  {}

  lemma SoundIs(s: State)
    ensures Sound(s) == (Founded(s) && Linked(s))
  {}

  lemma GoneFounded(s: State, gone: State)
    requires Base(s) && Sound(s) && gone == s.(live := gone.live) && forall k :: k in gone.live ==> k in s.live
    ensures Sound(gone) && Founded(s) && Linked(s)
  {
    hide AllBacked, Fold, Base;
    assert Grown(s, gone) by { hide Founded, Linked; }
    forall r | r in gone.conns && !gone.conns[r].keypad ensures AllBacked(gone, gone.conns[r].trace) {
      AllBackedLasts(s, gone, s.conns[r].trace);
    }
  }

  lemma OpenedSound(s: State, t: State, c: ConnId)
    requires Base(s) && Sound(s) && c !in s.conns && c in t.conns && t.conns == s.conns[c := t.conns[c]]
    requires t.conns[c].receiver.Unset? && (t.conns[c].keypad || t.conns[c].trace == [])
    requires forall k :: k in t.live ==> k in s.live || k == c
    ensures Sound(t)
  {
    hide AllBacked, Base;
    assert Grown(s, t);
    forall r | r in t.conns && !t.conns[r].keypad ensures AllBacked(t, t.conns[r].trace) {
      if r == c {
        NothingBacked(t);
      } else {
        AllBackedLasts(s, t, s.conns[r].trace);
      }
    }
  }

  lemma NothingBacked(s: State)
    ensures AllBacked(s, [])
  {}

  lemma InvProofs(s: State, hmac: Hmac)
    requires Inv(s, hmac)
    ensures Ok(s) && Base(s) && forall k :: k in s.conns && s.conns[k].keypad ==> ProofOk(s.conns[k])
  {
    hide IdentityOk, LedsOk, ProofOk, Base, Unique;
    forall k | k in s.conns && s.conns[k].keypad ensures ProofOk(s.conns[k]) {
      assert RecordOk(s.conns[k], hmac);
    }
  }

  lemma BrowserRegistrationSound(s: State, c: ConnId, r: Reg, hmac: Hmac)
    requires Inv(s, hmac) && Sound(s) && Talking(s, c, false)
    ensures Sound(Register(s, c, r))
  {
    InvProofs(s, hmac);
    hide Inv, Register, Sound, Base, Unique, ProofOk;
    if IsTruthy(r.receiver) {
      JoinedSound(s, c, r);
    } else {
      BrowserControllerSound(s, c, r);
    }
  }

  lemma ClosedSound(s: State, c: ConnId)
    requires Base(s) && Sound(s)
    ensures Sound(Remove(Terminate(s, c), c))
  {
    hide Sound, Base, Remove, Terminate;
    TerminateSound(s, c);
    if c in s.live {
      RemoveSound(Terminate(s, c), c);
    } else {
      NotLive(Terminate(s, c), c);
    }
  }

  lemma SoundStep(s: State, e: Event, hmac: Hmac)
    requires Inv(s, hmac) && Sound(s)
    ensures Sound(Step(s, e, hmac))
  {
    hide Inv, Register, Configure, Frame, Remove, Broadcast, Sound, Ok, Base, With, NewConn, Add, Put, SendOffer,
         Terminate, ProofOk;
    InvProofs(s, hmac);
    match e {
      case OpenBrowser(c) => if c !in s.conns { OpenBrowserSound(s, c); }
      case OpenKeypad(c, nonce) => if c !in s.conns { OpenKeypadSound(s, c, nonce); }
      case BrowserRegistration(c, r) =>
        if Talking(s, c, false) { BrowserRegistrationSound(s, c, r, hmac); }
      case BrowserConfiguration(c, id, leds, nonces) =>
        ConfigureSound(s, Named(s, Controllers(s), id), leds, nonces, hmac);
      case BrowserKey(c, id, text) => BroadcastSound(s, Key(id, text));
      case PlayerLogin(text) => BroadcastSound(s, Login(text));
      case KeypadFrame(c, binary, data, env) => if Talking(s, c, true) { FrameSound(s, c, binary, data, env, hmac); }
      case Offer(c, offer) => if MayOffer(s, c) { OfferSound(s, c, offer); }
      case HealthCheck(c) => TerminateSound(s, c);
      case Closed(c) =>
        if c in s.conns {
          ClosedSound(s, c);
        }
      case Reloaded(store) => StoreSound(s, store);
    }
  }

  lemma OfferSound(s: State, c: ConnId, offer: Offered)
    requires Base(s) && Sound(s)
    ensures Sound(SendOffer(s, c, Some(offer)))
  {
    hide Sound, Base, Encodable, Log;
    if c in s.conns {
      LogSound(s, c, Sent(OfferFrame(s.conns[c].version, offer)));
    }
  }

  lemma OpenBrowserSound(s: State, c: ConnId)
    requires Base(s) && Sound(s) && c !in s.conns
    ensures Sound(Add(Put(s, c, NewConn(false)), c))
  {
    hide Base, Sound;
    OpenedSound(s, Add(Put(s, c, NewConn(false)), c), c);
  }

  lemma OpenKeypadSound(s: State, c: ConnId, nonce: Bytes)
    requires Base(s) && Sound(s) && c !in s.conns
    ensures Sound(Put(s, c, With(NewConn(true).(challenge := Some(nonce)), Sent(AuthChallenge(nonce)))))
  {
    hide Base, Sound;
    OpenedSound(s, Put(s, c, With(NewConn(true).(challenge := Some(nonce)), Sent(AuthChallenge(nonce)))), c);
  }

  lemma StoreSound(s: State, store: Credentials.Devices)
    requires Base(s) && Sound(s)
    ensures Sound(s.(store := store))
  {
    hide Sound, RolesOk;
    assert Base(s.(store := store)) && Aside(s, s.(store := store));
    AsideSound(s, s.(store := store));
  }

  lemma {:induction false} SoundRun(s: State, events: seq<Event>, hmac: Hmac)
    requires Inv(s, hmac) && Sound(s)
    ensures Sound(Run(s, events, hmac)) && Inv(Run(s, events, hmac), hmac)
    decreases |events|
  {
    hide Inv, Sound, Step;
    if events != [] {
      InvStep(s, events[0], hmac);
      SoundStep(s, events[0], hmac);
      SoundRun(Step(s, events[0], hmac), events[1..], hmac);
    }
  }

  // ---- The wait for an installation ----

  datatype Wait = Wait(id: Bytes, firmware: Bytes, digest: Bytes, notBefore: int)

  /** The condition under which the wait ends; `limit` is five seconds past the clock. */
  predicate Satisfied(w: Wait, current: Option<Current>, limit: int) {
    && current.Some? && current.value.hardware == Some(KEYPAD_HARDWARE) && current.value.firmware == Some(w.firmware)
    && current.value.verified.Some? && current.value.verified.value.digest == w.digest
    && w.notBefore <= current.value.verified.value.at <= limit
  }

  /** After some message the record satisfied the wait. */
  ghost predicate Resolves(w: Wait, trace: seq<Entry>, current: Current) {
    exists n, limit :: 0 <= n <= |trace| && Satisfied(w, Fold(trace[..n], w.id), limit)
        && Fold(trace[..n], w.id) == Some(current)
  }

  /**
   * Keypad connection `k` of the awaited id proved what the record says: its firmware, hardware, digest and time
   * belong to one epoch of that connection. It answered its challenge with the secret that the credentials loaded
   * then hold for this id, and everything it is on record for did arrive from it.
   */
  ghost predicate ProvenBy(events: seq<Event>, k: ConnId, current: Current, w: Wait, hmac: Hmac) {
    var s := Run(START, events, hmac);
    && k in s.conns && s.conns[k].authenticated && s.conns[k].deviceId == w.id && Proved(s.conns[k], hmac)
    && SessionOrigins.Admitted(events, k, s.conns[k]) && SessionOrigins.Genuine(events, k, s.conns[k].trace)
    && current.firmware.Some? && current.hardware.Some? && current.verified.Some?
    && Proven(s.conns[k].trace, current.firmware.value, current.hardware.value, current.verified.value)
  }

  /** The record is what was waited for. */
  predicate Awaited(w: Wait, current: Current) {
    && current.hardware == Some(KEYPAD_HARDWARE) && current.firmware == Some(w.firmware)
    && current.verified.Some? && current.verified.value.digest == w.digest && current.verified.value.at >= w.notBefore
  }

  /**
   * End-to-end installation evidence. Whatever browsers and keypads send, in any order: if a browser's wait for an
   * installation resolves with a record, then that very record (its hardware, firmware, digest and time) was proved
   * by one authenticated keypad of that id within one epoch: it registered with this hardware and firmware, was asked,
   * and the server accepted its answer with this digest at this time, which is no earlier than asked for.
   */
  lemma InstallationIsEvidence(events: seq<Event>, hmac: Hmac, r: ConnId, w: Wait, current: Current)
    requires r in Run(START, events, hmac).conns && !Run(START, events, hmac).conns[r].keypad
    requires Resolves(w, Run(START, events, hmac).conns[r].trace, current)
    ensures Awaited(w, current)
    ensures exists k :: ProvenBy(events, k, current, w, hmac)
  {
    hide Run, Fold, Proven, Proved, SessionOrigins.Admitted, SessionOrigins.Genuine, IdentityOk, LedsOk, ProofOk, Base,
         Unique;
    var s := Run(START, events, hmac);
    assert Inv(START, hmac) by { StartInv(hmac); }
    SoundRun(START, events, hmac);
    var trace := s.conns[r].trace;
    var n, limit :| && 0 <= n <= |trace| && Satisfied(w, Fold(trace[..n], w.id), limit)
                    && Fold(trace[..n], w.id) == Some(current);
    assert AllBacked(s, trace);
    var v := current.verified.value;
    assert Evidence(s, w.id, w.firmware, KEYPAD_HARDWARE, v);
    var k :| && k in s.conns && s.conns[k].authenticated && s.conns[k].deviceId == w.id
             && Proven(s.conns[k].trace, w.firmware, KEYPAD_HARDWARE, v);
    SessionOrigins.IdentityOnEveryRun(events, hmac, k);
    assert ProvenBy(events, k, current, w, hmac);
  }

  lemma StartInv(hmac: Hmac)
    ensures Inv(START, hmac)
  {}
}
