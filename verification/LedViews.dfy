/** Receivers' views of a keypad's confirmed colours agree with the server's. */
module LedViews {
  import opened Prelude
  import Credentials
  import opened DeviceAuth
  import opened Protocol
  import opened ServerFrames
  import opened Sessions
  import opened SessionRegistry
  import opened SessionMoves
  import opened SessionRecords
  import opened SessionRuns
  import opened InstallationEvidence

  /** What one message says about the confirmed colours of an id. */
  function Shown(leds: Option<Leds>, note: Note, id: Bytes): Option<Leds> {
    match note
    case Presence(Str(x), _, meta) => if x == id then meta.leds else leds
    case LedState(Str(x), applied) => if x == id then applied else leds
    case _ => leds
  }

  /** A receiver's view of the confirmed colours of an id. */
  function View(trace: seq<Entry>, id: Bytes): Option<Leds> {
    if trace == [] then None
    else
      var rest, e := View(trace[..|trace| - 1], id), trace[|trace| - 1];
      if e.Told? then Shown(rest, e.note, id) else rest
  }

  lemma ViewWith(trace: seq<Entry>, e: Entry, id: Bytes)
    ensures View(trace + [e], id) == if e.Told? then Shown(View(trace, id), e.note, id) else View(trace, id)
  {
    assert (trace + [e])[..|trace|] == trace;
  }

  /** No browser has registered under this id. */
  ghost predicate Unclaimed(s: State, id: Bytes) {
    forall k :: k in s.conns && !s.conns[k].keypad ==> s.conns[k].controllerId != Str(id)
  }

  /** Every receiver shows the colours the server has confirmed for the registered keypad of this id. */
  ghost predicate Agrees(s: State, id: Bytes) {
    forall r, k :: r in s.live && HasFlag(s, r, True) && Registered(s, k) && s.conns[k].deviceId == id ==>
      View(s.conns[r].trace, id) == s.conns[k].applied
  }

  // ---- Steps about other things ----

  /** The receivers are told nothing about the colours of `id`, and its keypad's do not change. */
  predicate Silent(e: Entry, id: Bytes) {
    e.Told? && (e.note.Presence? || e.note.LedState?) ==> e.note.id != Str(id)
  }

  ghost predicate Aside(s: State, t: State, id: Bytes) {
    && t.conns.Keys == s.conns.Keys
    && (forall r :: r in t.live && HasFlag(t, r, True) ==>
          && r in s.live && HasFlag(s, r, True)
          && (t.conns[r].trace == s.conns[r].trace
              || exists e :: Silent(e, id) && t.conns[r].trace == s.conns[r].trace + [e]))
    && (forall k :: Registered(t, k) && t.conns[k].deviceId == id ==>
          Registered(s, k) && s.conns[k].deviceId == id && t.conns[k].applied == s.conns[k].applied)
  }

  lemma SilentView(trace: seq<Entry>, e: Entry, id: Bytes)
    requires Silent(e, id)
    ensures View(trace + [e], id) == View(trace, id)
  {
    ViewWith(trace, e, id);
  }

  lemma AsideAgrees(s: State, t: State, id: Bytes)
    requires Agrees(s, id) && Aside(s, t, id)
    ensures Agrees(t, id)
  {
    hide View, Silent;
    forall r, k | r in t.live && HasFlag(t, r, True) && Registered(t, k) && t.conns[k].deviceId == id
      ensures View(t.conns[r].trace, id) == t.conns[k].applied
    {
      if t.conns[r].trace != s.conns[r].trace {
        var e :| Silent(e, id) && t.conns[r].trace == s.conns[r].trace + [e];
        SilentView(s.conns[r].trace, e, id);
      }
    }
  }

  // ---- Steps about the keypad of this id ----

  /** Every receiver is told `note`, which shows the colours now confirmed for the keypad of `id`. */
  ghost predicate Announced(s: State, t: State, note: Note, id: Bytes) {
    && t.conns.Keys == s.conns.Keys
    && (forall r :: r in t.live && HasFlag(t, r, True) ==>
          r in s.live && HasFlag(s, r, True) && t.conns[r].trace == s.conns[r].trace + [Told(note)])
    && (note.Presence? || note.LedState?) && note.id == Str(id)
    && (forall k :: Registered(t, k) && t.conns[k].deviceId == id ==> t.conns[k].applied == Shown(None, note, id))
  }

  lemma AnnouncedAgrees(s: State, t: State, note: Note, id: Bytes)
    requires Announced(s, t, note, id)
    ensures Agrees(t, id)
  {
    hide View;
    forall r, k | r in t.live && HasFlag(t, r, True) && Registered(t, k) && t.conns[k].deviceId == id
      ensures View(t.conns[r].trace, id) == t.conns[k].applied
    {
      ViewWith(s.conns[r].trace, Told(note), id);
    }
  }

  /** This controller has the id. */
  predicate Carries(s: State, k: ConnId, id: Bytes) {
    k in s.conns && s.conns[k].controllerId == Str(id)
  }

  /** Entry `j` is the last of this id. */
  predicate LastOf(s: State, ids: seq<ConnId>, j: int, id: Bytes) {
    0 <= j < |ids| && Carries(s, ids[j], id) && forall m :: j < m < |ids| ==> !Carries(s, ids[m], id)
  }

  /** After a snapshot a view of an id shows the colours of the last controller listed under it. */
  lemma {:induction false} SnapshotShows(s: State, ids: seq<ConnId>, trace: seq<Entry>, j: int, id: Bytes)
    requires LastOf(s, ids, j, id)
    ensures View(trace + Snapshot(s, ids), id) == MetaOf(s.conns[ids[j]]).leds
    decreases |ids|
  {
    var front, k := ids[..|ids| - 1], ids[|ids| - 1];
    var more := trace + Snapshot(s, front);
    hide View;
    if k in s.conns {
      assert trace + Snapshot(s, ids) == more + [Told(PresenceOf(s.conns[k], Connected))];
      ViewWith(more, Told(PresenceOf(s.conns[k], Connected)), id);
    } else {
      assert trace + Snapshot(s, ids) == more;
    }
    if j < |front| {
      assert LastOf(s, front, j, id);
      SnapshotShows(s, front, trace, j, id);
    }
  }

  lemma {:induction false} LastExists(s: State, ids: seq<ConnId>, k: ConnId, id: Bytes)
    requires k in ids && Carries(s, k, id)
    ensures exists j :: LastOf(s, ids, j, id)
    decreases |ids|
  {
    var last := |ids| - 1;
    if Carries(s, ids[last], id) {
      assert LastOf(s, ids, last, id);
    } else {
      LastExists(s, ids[..last], k, id);
      var j :| LastOf(s, ids[..last], j, id);
      assert LastOf(s, ids, j, id);
    }
  }

  // ---- Every event ----

  /** The keypad registered under the id shows confirmed colours. */
  ghost predicate Colourful(s: State, id: Bytes) {
    exists k :: Registered(s, k) && s.conns[k].deviceId == id && s.conns[k].applied.Some?
  }

  /** A browser that registers under the id of such a keypad, while another receiver watches. */
  ghost predicate Overwrites(s: State, c: ConnId, r: Reg, id: Bytes) {
    && !IsTruthy(r.receiver) && r.id == Str(id) && Colourful(s, id)
    && exists w :: w in s.live && w != c && HasFlag(s, w, True)
  }

  /** A browser that becomes a receiver, and is told last of a browser under the id of such a keypad. */
  ghost predicate Overlaid(s: State, c: ConnId, r: Reg, id: Bytes)
    requires c in s.conns
  {
    var put := Put(s, c, Registering(s.conns[c], r));
    && r.receiver.True? && Colourful(s, id)
    && exists j :: LastOf(put, Controllers(put), j, id) && !put.conns[Controllers(put)[j]].keypad
  }

  /** The colours of the keypad registered under the id, if it is the last controller listed, or nothing. */
  lemma JoinedView(put: State, trace: seq<Entry>, k: ConnId, j: int)
    requires Ok(put) && Registered(put, k) && LastOf(put, Controllers(put), j, put.conns[k].deviceId)
    ensures View(trace + Snapshot(put, Controllers(put)), put.conns[k].deviceId) ==
            if put.conns[Controllers(put)[j]].keypad then put.conns[k].applied else None
  {
    var ids, id := Controllers(put), put.conns[k].deviceId;
    assert ids[j] in ids;
    SnapshotIds(put);
    assert RolesOk(put.conns[ids[j]]) && RolesOk(put.conns[k]);
    hide Snapshot, Controllers, View;
    SnapshotShows(put, ids, trace, j, id);
    if put.conns[ids[j]].keypad {
      OneRegistered(put, ids[j], k);
    }
  }

  lemma JoinedExactly(s: State, c: ConnId, r: Reg, id: Bytes)
    requires Ok(s) && Agrees(s, id) && Talking(s, c, false) && IsTruthy(r.receiver)
    ensures Agrees(Register(s, c, r), id) <==> !Overlaid(s, c, r, id)
  {
    hide Register, Snapshot, Controllers, View, Base, Unique, RolesOk, Grown, LastOf;
    var t, put := Register(s, c, r), Put(s, c, Registering(s.conns[c], r));
    var ids := Controllers(put);
    TalkingBrowser(s, c);
    RegisterReceiverEffect(s, c, r);
    TurningOk(s, c, r);
    assert r.receiver.True? ==> HasFlag(t, c, True);
    if k :| Registered(s, k) && s.conns[k].deviceId == id {
      assert Registered(put, k) && Registered(t, k) && k in ids by { ListsController(put, k); }
      assert Carries(put, k, id) by { OkBase(put); BaseRoles(put, k); RegisteredId(put.conns[k]); }
      LastExists(put, ids, k, id);
      var j :| LastOf(put, ids, j, id);
      JoinedView(put, s.conns[c].trace + [Joined], k, j);
      forall i | Registered(s, i) && s.conns[i].deviceId == id ensures i == k {
        OneRegistered(s, i, k);
      }
      forall i | LastOf(put, ids, i, id) ensures i == j {
        LastOnce(put, ids, i, j, id);
      }
    }
  }

  lemma LastOnce(s: State, ids: seq<ConnId>, i: int, j: int, id: Bytes)
    requires LastOf(s, ids, i, id) && LastOf(s, ids, j, id)
    ensures i == j
  {}

  lemma OverwritingExactly(s: State, c: ConnId, r: Reg, id: Bytes)
    requires Ok(s) && Agrees(s, id) && Talking(s, c, false) && !IsTruthy(r.receiver) && r.id == Str(id)
    ensures Agrees(Register(s, c, r), id) <==> !Overwrites(s, c, r, id)
  {
    hide Register, Evicted, Hears, Base, Unique, RolesOk, SameRole, View;
    var t, note := Register(s, c, r), PresenceOf(Registering(s.conns[c], r), r.status);
    TalkingBrowser(s, c);
    RegisterControllerEffect(s, c, r);
    assert note == Presence(Str(id), r.status, Meta(false, None, None, None, None));
    hide PresenceOf;
    forall k | k in s.conns && k != c
      ensures t.conns[k].receiver == s.conns[k].receiver && t.conns[k].keypad == s.conns[k].keypad
      ensures k in s.live && HasFlag(s, k, True) ==> View(t.conns[k].trace, id).None?
      ensures s.conns[k].keypad ==> t.conns[k] == s.conns[k]
    {
      EvictsNobody(s, c, r, k);
      OtherHears(s, k, note, t.conns[k]);
      ViewWith(s.conns[k].trace, Told(note), id);
      if s.conns[k].keypad {
        Deaf(s, k, note);
      }
    }
    forall k ensures !Evicted(s, c, r, k) {
      EvictsNobody(s, c, r, k);
    }
    forall k ensures Registered(t, k) <==> Registered(s, k) {
    }
    if Overwrites(s, c, r, id) {
      var w :| w in s.live && w != c && HasFlag(s, w, True);
      var k :| Registered(s, k) && s.conns[k].deviceId == id && s.conns[k].applied.Some?;
      assert w in t.live && HasFlag(t, w, True) && Registered(t, k);
    }
  }

  lemma RegistrationExactly(s: State, c: ConnId, r: Reg, id: Bytes)
    requires Ok(s) && Agrees(s, id) && Talking(s, c, false)
    ensures Agrees(Register(s, c, r), id) <==> !Overwrites(s, c, r, id) && !Overlaid(s, c, r, id)
  {
    hide Register, Agrees, Ok, Colourful, Controllers;
    if IsTruthy(r.receiver) {
      JoinedExactly(s, c, r, id);
    } else if r.id == Str(id) {
      OverwritingExactly(s, c, r, id);
    } else {
      BrowserControllerAgrees(s, c, r, id);
    }
  }

  lemma ListsController(s: State, k: ConnId)
    requires Registered(s, k)
    ensures k in Controllers(s)
  {}

  lemma BrowserControllerAgrees(s: State, c: ConnId, r: Reg, id: Bytes)
    requires Ok(s) && Agrees(s, id) && Talking(s, c, false) && !IsTruthy(r.receiver) && r.id != Str(id)
    ensures Agrees(Register(s, c, r), id)
  {
    hide Register, PresenceOf, Evicted, Hears, Agrees, Base, Unique, RolesOk, SameRole;
    var t, note := Register(s, c, r), PresenceOf(Registering(s.conns[c], r), r.status);
    TalkingBrowser(s, c);
    RegisterControllerEffect(s, c, r);
    assert note.Presence? && note.id == r.id by { PresenceId(Registering(s.conns[c], r), r.status); }
    forall k | k in s.conns && k != c
      ensures t.conns[k].receiver == s.conns[k].receiver && t.conns[k].keypad == s.conns[k].keypad
      ensures t.conns[k].trace == s.conns[k].trace || t.conns[k].trace == s.conns[k].trace + [Told(note)]
      ensures s.conns[k].keypad ==> t.conns[k] == s.conns[k]
    {
      OtherHears(s, k, note, t.conns[k]);
      EvictsNobody(s, c, r, k);
      if s.conns[k].keypad {
        Deaf(s, k, note);
      }
    }
    assert Silent(Told(note), id);
    AsideAgrees(s, t, id);
  }

  lemma PresenceId(conn: Conn, status: Status)
    ensures PresenceOf(conn, status) == Presence(conn.controllerId, status, MetaOf(conn))
  {}

  lemma EnrolLeds(conn: Conn, m: Move)
    requires m.Enrol?
    ensures Apply(conn, m).applied.None?
  {
    hide Encodable, Enrolled;
    var a := Enrolled(conn, m.version, m.firmware, m.hardware, m.at);
    var b := Accepting(a, m.firmware, m.accepted);
    var c := Asking(b, m.nonce);
    assert a.applied.None? by { ClearedLeds(conn, m); }
    assert b.applied == a.applied && c.applied == b.applied && Proposing(c, m.offer).applied == c.applied;
  }

  lemma ClearedLeds(conn: Conn, m: Move)
    requires m.Enrol?
    ensures Enrolled(conn, m.version, m.firmware, m.hardware, m.at).applied.None?
  {}

  lemma KeypadRegistrationAgrees(
      s: State, c: ConnId, version: nat, firmware: Bytes, hardware: Bytes, env: Environment, hmac: Hmac, id: Bytes)
    requires Ok(s) && Agrees(s, id) && Talking(s, c, true) && s.conns[c].authenticated && s.conns[c].deviceId in s.store
    ensures Agrees(RegisterKeypad(s, c, version, firmware, hardware, env), id)
  {
    hide RegisterKeypad, PresenceOf, Enrolled, Apply, Evicted, Hears, Base, Unique, RolesOk, Agrees, SameRole;
    var conn, t := s.conns[c], RegisterKeypad(s, c, version, firmware, hardware, env);
    var r, m := Dispatched(conn, firmware, hardware), RegistrationMove(s, conn, version, firmware, hardware, env);
    var note := PresenceOf(Enrolled(conn, version, firmware, hardware, env.at), Connected);
    RegisterKeypadEffect(s, c, version, firmware, hardware, env);
    EnrolFields(conn, m);
    EnrolledNote(conn, version, firmware, hardware, env.at);
    EnrolLeds(conn, m);
    OkBase(s);
    forall k | k in s.conns && k != c
      ensures t.conns[k].receiver == s.conns[k].receiver && t.conns[k].keypad == s.conns[k].keypad
      ensures t.conns[k].trace == s.conns[k].trace || t.conns[k].trace == s.conns[k].trace + [Told(note)]
      ensures k in t.live && t.conns[k].receiver.True? ==> t.conns[k].trace == s.conns[k].trace + [Told(note)]
      ensures s.conns[k].keypad ==>
                t.conns[k].deviceId == s.conns[k].deviceId && t.conns[k].applied == s.conns[k].applied
    {
      OtherHears(s, k, note, t.conns[k]);
      if s.conns[k].keypad {
        Deaf(s, k, note);
      }
    }
    if conn.deviceId == id {
      RegisterKeypadOk(s, c, version, firmware, hardware, env);
      LiveKeypad(s, c);
      NeverEvictsItself(s, c, r);
      hide Ok;
      forall k | Registered(t, k) && t.conns[k].deviceId == id ensures t.conns[k].applied.None? {
        assert Registered(t, c);
        OneRegistered(t, c, k);
      }
      AnnouncedAgrees(s, t, note, id);
    } else {
      assert Silent(Told(note), id);
      AsideAgrees(s, t, id);
    }
  }

  lemma OneRegistered(s: State, j: ConnId, k: ConnId)
    requires Ok(s) && Registered(s, j) && Registered(s, k) && s.conns[j].deviceId == s.conns[k].deviceId
    ensures j == k
  {}

  lemma TellAgrees(s: State, note: Note, id: Bytes)
    requires Agrees(s, id) && Silent(Told(note), id)
    ensures Agrees(Broadcast(s, note), id)
  {
    hide Broadcast, Hears, Agrees, Silent;
    var t := Broadcast(s, note);
    BroadcastEffect(s, note);
    forall k | k in s.conns
      ensures SameEnrolment(s.conns[k], t.conns[k]) && t.conns[k].applied == s.conns[k].applied
      ensures t.conns[k].trace == s.conns[k].trace || t.conns[k].trace == s.conns[k].trace + [Told(note)]
    {
      HearsTraces(s, k, note);
      HearsEnrolment(s, k, note);
      HearsLeds(s, k, note);
    }
    AsideAgrees(s, t, id);
  }

  /** A move of one keypad outside registration, with at most one message to the receivers. */
  lemma OwnAgrees(s: State, t: State, c: ConnId, m: Move, note: Note, id: Bytes)
    requires Base(s) && Agrees(s, id) && c in s.conns && s.conns[c].keypad && !Registers(m)
    requires t == Put(s, c, Apply(s.conns[c], m)) || t == Broadcast(Put(s, c, Apply(s.conns[c], m)), note)
    requires Silent(Told(note), id)
    requires s.conns[c].deviceId == id && Registered(s, c) ==> Apply(s.conns[c], m).applied == s.conns[c].applied
    ensures Agrees(t, id)
  {
    hide Broadcast, Apply, Base, RolesOk, Agrees, Silent;
    var put := Put(s, c, Apply(s.conns[c], m));
    OwnEnrolment(s.conns[c], m);
    BaseRoles(s, c);
    KeypadFlag(s.conns[c], Apply(s.conns[c], m));
    AsideAgrees(s, put, id);
    TellAgrees(put, note, id);
  }

  lemma HearsLeds(s: State, k: ConnId, note: Note)
    requires k in s.conns
    ensures Hears(s, k, note).applied == s.conns[k].applied
  {}

  /** A step in which the receivers are told the new colours of a registered keypad. */
  lemma ToldAgrees(s: State, t: State, k: ConnId, m: Move, leds: Option<Leds>)
    requires Ok(s) && Ok(t) && t.live == s.live && t.conns.Keys == s.conns.Keys && Registered(s, k) && !Registers(m)
    requires t.conns[k] == Apply(s.conns[k], m) && t.conns[k].applied == leds
    requires forall j :: j in s.conns && j != k ==> t.conns[j] == Hears(s, j, LedState(Str(s.conns[k].deviceId), leds))
    ensures Agrees(t, s.conns[k].deviceId)
    ensures forall id :: Agrees(s, id) && id != s.conns[k].deviceId ==> Agrees(t, id)
  {
    hide Apply, Hears, Base, Unique, RolesOk, Agrees, SameRole;
    var own := s.conns[k].deviceId;
    var note := LedState(Str(own), leds);
    OwnEnrolment(s.conns[k], m);
    OkBase(s);
    BaseRoles(s, k);
    KeypadFlag(s.conns[k], t.conns[k]);
    forall j | j in s.conns
      ensures SameEnrolment(s.conns[j], t.conns[j])
      ensures j != k && j in s.live && s.conns[j].receiver.True? ==> t.conns[j].trace == s.conns[j].trace + [Told(note)]
      ensures j != k ==> t.conns[j].applied == s.conns[j].applied
    {
      HearsTraces(s, j, note);
      HearsEnrolment(s, j, note);
      HearsLeds(s, j, note);
    }
    forall j | Registered(t, j) && t.conns[j].deviceId == own ensures t.conns[j].applied == leds {
      assert Registered(t, k);
      OneRegistered(t, j, k);
    }
    AnnouncedAgrees(s, t, note, own);
    forall id | Agrees(s, id) && id != own ensures Agrees(t, id) {
      assert Silent(Told(note), id);
      AsideAgrees(s, t, id);
    }
  }

  /** A registration frame whose handler throws after the confirmed colours were cleared. */
  predicate Forgets(s: State, c: ConnId) {
    c in s.conns && s.conns[c].deviceId !in s.store && s.conns[c].applied.Some?
  }

  lemma LapsedAgrees(s: State, c: ConnId, version: nat, firmware: Bytes, hardware: Bytes, env: Environment, id: Bytes)
    requires Base(s) && Agrees(s, id) && Talking(s, c, true) && s.conns[c].deviceId !in s.store
    requires s.conns[c].deviceId == id && Registered(s, c) ==> s.conns[c].applied.None?
    ensures Agrees(RegisterKeypad(s, c, version, firmware, hardware, env), id)
  {
    hide RegisterKeypad, Apply, Base, Agrees;
    var m := RegistrationMove(s, s.conns[c], version, firmware, hardware, env);
    RegisterUnknownEffect(s, c, version, firmware, hardware, env);
    LapsedLeds(s.conns[c], m);
    OwnAgrees(s, RegisterKeypad(s, c, version, firmware, hardware, env), c, m, Login([]), id);
  }

  lemma LapsedLeds(conn: Conn, m: Move)
    requires m.Lapse?
    ensures Apply(conn, m).applied.None? && SameEnrolment(conn, Apply(conn, m))
  {}

  /**
   * A registration frame keeps the receivers' views right exactly if its keypad is still in the credentials or had
   * nothing confirmed: otherwise the server forgets the colours and tells nobody.
   */
  lemma RegistrationAgreesIff(
      s: State, c: ConnId, version: nat, firmware: Bytes, hardware: Bytes, env: Environment, hmac: Hmac, r: ConnId)
    requires Ok(s) && Talking(s, c, true) && Agrees(s, s.conns[c].deviceId) && Registered(s, c) && r in s.live
    requires HasFlag(s, r, True)
    ensures Agrees(RegisterKeypad(s, c, version, firmware, hardware, env), s.conns[c].deviceId) <==> !Forgets(s, c)
  {
    hide RegisterKeypad, Apply, View, Base, Unique;
    var conn, t := s.conns[c], RegisterKeypad(s, c, version, firmware, hardware, env);
    assert RolesOk(conn) by { OkBase(s); BaseRoles(s, c); }
    if conn.deviceId in s.store {
      KeypadRegistrationAgrees(s, c, version, firmware, hardware, env, hmac, conn.deviceId);
    } else if conn.applied.None? {
      OkBase(s);
      LapsedAgrees(s, c, version, firmware, hardware, env, conn.deviceId);
    } else {
      RegisterUnknownEffect(s, c, version, firmware, hardware, env);
      LapsedLeds(conn, RegistrationMove(s, conn, version, firmware, hardware, env));
      assert Registered(t, c) && t.conns[r] == s.conns[r];
      assert View(t.conns[r].trace, conn.deviceId) == conn.applied;
    }
  }

  lemma AcknowledgeAgrees(s: State, c: ConnId, version: nat, nonce: Bytes, env: Environment, hmac: Hmac, id: Bytes)
    requires Ok(s) && Agrees(s, id) && Talking(s, c, true) && s.conns[c].authenticated
    requires version == s.conns[c].version
    ensures Agrees(AcknowledgeLeds(s, c, version, nonce, env), id)
  {
    hide Broadcast, Apply, AcknowledgeLeds, Agrees, Base, Unique, RolesOk, Hears, Moved;
    var conn, m, t := s.conns[c], Acknowledge(version, nonce, env.at), AcknowledgeLeds(s, c, version, nonce, env);
    OkBase(s);
    BaseRoles(s, c);
    AcknowledgeEffect(s, c, version, nonce, env);
    AcknowledgedLeds(conn, m);
    if HasId(conn) && conn.pending.Some? && conn.pending.value.nonce == nonce {
      NamedRole(conn);
      LiveKeypad(s, c);
      var leds := Some(conn.pending.value.leds);
      OwnMove(s, t, c, m, LedState(Str(conn.deviceId), leds), hmac, Bringing(c, m));
      OwnEnrolment(conn, m);
      KeypadFlag(conn, Apply(conn, m));
      TellingOwn(s, c, Apply(conn, m), LedState(Str(conn.deviceId), leds));
      ToldAgrees(s, t, c, m, leds);
    } else {
      OwnAgrees(s, t, c, m, Login([]), id);
    }
  }

  lemma AcknowledgedLeds(conn: Conn, m: Move)
    requires m.Acknowledge?
    ensures Apply(conn, m).applied ==
            if HasId(conn) && conn.pending.Some? && conn.pending.value.nonce == m.nonce then
                Some(conn.pending.value.leds) else conn.applied
  {
    hide HasId;
  }

  lemma TellingOwn(s: State, c: ConnId, conn: Conn, note: Note)
    requires c in s.conns && !conn.receiver.True? && Base(s) && s.conns[c].keypad
    ensures var t := Broadcast(Put(s, c, conn), note);
            && t.live == s.live && t.conns.Keys == s.conns.Keys && t.conns[c] == conn
            && forall j :: j in s.conns && j != c ==> t.conns[j] == Hears(s, j, note)
  {
    hide Broadcast, Hears;
    var put := Put(s, c, conn);
    BroadcastEffect(put, note);
    KeypadDeaf(put, c, note);
    forall j | j in s.conns && j != c ensures Hears(put, j, note) == Hears(s, j, note) {
      HearsFrame(s, put, j, note);
    }
  }

  lemma FrameAgrees(s: State, c: ConnId, binary: bool, data: Bytes, env: Environment, hmac: Hmac, id: Bytes)
    requires Ok(s) && Agrees(s, id) && Talking(s, c, true)
    requires IsRegistration(data) && s.conns[c].deviceId == id ==> !Forgets(s, c)
    ensures Agrees(Frame(s, c, binary, data, env, hmac), id)
  {
    hide Agrees, Delivered, Authenticate, RegisterKeypad, AcknowledgeLeds, Report, Broadcast, Encodable, Base, Unique,
         Apply;
    var conn, t := s.conns[c], Frame(s, c, binary, data, env, hmac);
    OkBase(s);
    PlainMoves(conn, conn.version, env.at);
    if t == Terminate(s, c) {
      QuietLeds(conn, Close);
      OwnAgrees(s, t, c, Close, Login([]), id);
    } else {
      var (version, message) := Delivered(data).value;
      DeliveredId(data);
      match message {
        case AuthResponse(device, mac) => AuthenticateAgrees(s, c, version, device, mac, env, hmac, id);
        case Registration(firmware, hardware) =>
          if conn.deviceId in s.store {
            KeypadRegistrationAgrees(s, c, version, firmware, hardware, env, hmac, id);
          } else {
            LapsedAgrees(s, c, version, firmware, hardware, env, id);
          }
        case LedApplied(nonce) => AcknowledgeAgrees(s, c, version, nonce, env, hmac, id);
        case ConfigurationReport(nonce, digest) =>
          ReportEffect(s, c, version, nonce, digest, env);
          QuietLeds(conn, Prove(version, nonce, digest, env.at));
          OwnAgrees(s, t, c, Prove(version, nonce, digest, env.at),
                    ConfigurationState(Str(conn.deviceId), Verified(Credentials.ToHex(digest), env.at)), id);
        case KeyEvent(_, _) =>
          QuietLeds(conn, Press(version, message, env.at));
          OwnAgrees(s, t, c, Press(version, message, env.at), Pressed(Str(conn.deviceId), message.key, message.state),
              id);
      }
    }
  }

  lemma QuietLeds(conn: Conn, m: Move)
    requires m.Close? || m.Prove? || m.Press? || m.LightOld? || m.Propose?
    ensures Apply(conn, m).applied == conn.applied
  {
    hide Encodable, HasId, Credentials.ToHex;
  }

  lemma AuthenticateAgrees(
      s: State, c: ConnId, version: nat, device: Bytes, mac: Bytes, env: Environment, hmac: Hmac, id: Bytes)
    requires Ok(s) && Agrees(s, id) && Talking(s, c, true) && !s.conns[c].authenticated && device != []
    ensures Agrees(Authenticate(s, c, version, device, mac, env, hmac), id)
  {
    hide Authenticate, Agrees, Ok;
    AuthenticateFrame(s, c, version, device, mac, env, hmac);
    AsideAgrees(s, Authenticate(s, c, version, device, mac, env, hmac), id);
  }

  lemma CommandAgrees(s: State, k: ConnId, leds: Leds, nonce: Bytes, hmac: Hmac, id: Bytes)
    requires Ok(s) && Agrees(s, id) && Registered(s, k) && s.conns[k].version == CONFIGURATION_VERSION
    ensures Agrees(Command(s, k, leds, nonce), id)
  {
    hide Command, Apply, Agrees, Base, Unique, RolesOk, Hears, Moved;
    OkBase(s);
    BaseRoles(s, k);
    RegisteredId(s.conns[k]);
    CommandEffect(s, k, leds, nonce);
    CommandMoves(s, k, leds, nonce, hmac);
    LitLeds(s.conns[k], Light(nonce, leds));
    ToldAgrees(s, Command(s, k, leds, nonce), k, Light(nonce, leds), None);
  }

  lemma RegisteredId(conn: Conn)
    requires RolesOk(conn) && conn.keypad && conn.receiver.False?
    ensures conn.authenticated && conn.controllerId == Str(conn.deviceId)
  {}

  lemma LitLeds(conn: Conn, m: Move)
    requires m.Light?
    ensures Apply(conn, m).applied.None?
  {}

  lemma LogAgrees(s: State, k: ConnId, e: Entry, id: Bytes)
    requires Agrees(s, id) && Silent(e, id)
    ensures Agrees(Log(s, k, e), id)
  {
    hide Agrees, Silent;
    AsideAgrees(s, Log(s, k, e), id);
  }

  lemma {:induction false} ConfigureAgrees(
      s: State, targets: seq<ConnId>, leds: Option<Leds>, nonces: seq<Bytes>, hmac: Hmac, id: Bytes)
    requires Inv(s, hmac) && Agrees(s, id) && Targets(s, targets) && forall k :: k in targets ==> k in s.live
    ensures Agrees(Configure(s, targets, leds, nonces), id)
    decreases |targets|
  {
    if targets != [] && targets[0] in s.conns {
      var k, conn := targets[0], s.conns[targets[0]];
      assert RolesOk(conn) && HasFlag(s, k, False);
      hide Agrees, RecordOk, Minor, Targets, Command, Channels, KnownVersion, Log, Base, Unique;
      var t, rest := s, nonces;
      if conn.keypad && conn.version == CONFIGURATION_VERSION {
        if Sendable(leds) && nonces != [] {
          t, rest := Command(s, k, leds.value, nonces[0]), nonces[1..];
          CommandInv(s, k, leds.value, nonces[0], hmac);
          CommandAgrees(s, k, leds.value, nonces[0], hmac, id);
        }
      } else if conn.keypad {
        if Sendable(leds) && KnownVersion(conn.version) {
          t := Log(s, k, Sent(Configuration(conn.version, leds.value)));
          LogOldMoves(s, k, leds.value, hmac);
          LogMinor(s, k, Sent(Configuration(conn.version, leds.value)));
          LogAgrees(s, k, Sent(Configuration(conn.version, leds.value)), id);
        }
      } else {
        t := Log(s, k, Told(Forwarded(conn.controllerId, leds)));
        LogBrowser(s, k, Told(Forwarded(conn.controllerId, leds)), hmac);
        LogMinor(s, k, Told(Forwarded(conn.controllerId, leds)));
        LogAgrees(s, k, Told(Forwarded(conn.controllerId, leds)), id);
      }
      if Configure(s, targets, leds, nonces) != s {
        TargetsStay(s, t, targets);
        MinorLive(s, t);
        assert forall j :: j in targets[1..] ==> j in targets;
        ConfigureAgrees(t, targets[1..], leds, rest, hmac, id);
      }
    }
  }

  lemma MinorLive(s: State, t: State)
    requires Minor(s, t)
    ensures t.live == s.live
  {}

  lemma RemoveAgrees(s: State, c: ConnId, id: Bytes)
    requires Base(s) && Agrees(s, id) && c in s.live
    ensures Agrees(Remove(s, c), id)
  {
    hide Remove, Hears, PresenceOf, Announces, Without, Agrees, RolesOk, Base, SameEnrolment;
    LiveKnown(s, c);
    var t, gone, note := Remove(s, c), s.(live := Without(s.live, c)), PresenceOf(s.conns[c], Disconnected);
    RemoveEffect(s, c);
    PresenceId(s.conns[c], Disconnected);
    WithoutLess(s.live, c);
    AsideAgrees(s, gone, id);
    if Announces(s, c) {
      forall k | k in s.conns
        ensures SameEnrolment(gone.conns[k], t.conns[k]) && t.conns[k].applied == s.conns[k].applied
        ensures k in gone.live && s.conns[k].receiver.True? ==> t.conns[k].trace == s.conns[k].trace + [Told(note)]
      {
        HearsTraces(gone, k, note);
        HearsEnrolment(gone, k, note);
        HearsLeds(gone, k, note);
      }
      SameRegistered(gone, t);
      if note.id == Str(id) {
        NobodyLeft(s, c);
        AnnouncedAgrees(gone, t, note, id);
      } else {
        assert Silent(Told(note), id);
        AsideAgrees(gone, t, id);
      }
    } else {
      assert t == gone;
    }
  }

  lemma SameRegistered(s: State, t: State)
    requires t.conns.Keys == s.conns.Keys && t.live == s.live
    requires forall k :: k in s.conns ==> SameEnrolment(s.conns[k], t.conns[k])
    ensures forall k :: Registered(t, k) ==> Registered(s, k) && t.conns[k].deviceId == s.conns[k].deviceId
    ensures forall k :: HasFlag(t, k, True) ==> HasFlag(s, k, True)
  {}

  lemma LiveKnown(s: State, c: ConnId)
    requires Base(s) && c in s.live
    ensures c in s.conns
  {}

  /** A departure is announced only if no keypad is registered under its id any more. */
  lemma NobodyLeft(s: State, c: ConnId)
    requires Base(s) && Announces(s, c)
    ensures forall k :: Registered(s.(live := Without(s.live, c)), k) ==>
              Str(s.conns[k].deviceId) != s.conns[c].controllerId
  {
    hide Without;
    forall k | Registered(s.(live := Without(s.live, c)), k)
      ensures Str(s.conns[k].deviceId) != s.conns[c].controllerId
    {
      assert RolesOk(s.conns[k]) && HasFlag(s.(live := Without(s.live, c)), k, False);
    }
  }

  lemma TerminateAgrees(s: State, c: ConnId, id: Bytes)
    requires Agrees(s, id)
    ensures Agrees(Terminate(s, c), id) && Terminate(s, c).live == s.live
  {
    hide Agrees;
    AsideAgrees(s, Terminate(s, c), id);
  }

  lemma ClosedAgrees(s: State, c: ConnId, id: Bytes)
    requires Base(s) && Agrees(s, id)
    ensures Agrees(Remove(Terminate(s, c), c), id)
  {
    hide Agrees, Base, Remove, Terminate;
    TerminateAgrees(s, c, id);
    TerminateBase(s, c);
    if c in s.live {
      RemoveAgrees(Terminate(s, c), c, id);
    } else {
      NotLive(Terminate(s, c), c);
    }
  }

  lemma OpenedAgrees(s: State, t: State, c: ConnId, id: Bytes)
    requires Agrees(s, id) && c !in s.conns && c in t.conns && t.conns == s.conns[c := t.conns[c]]
    requires t.conns[c].receiver.Unset? && forall k :: k in t.live ==> k in s.live || k == c
    ensures Agrees(t, id)
  {}

  // ---- Every run ----

  predicate IsRegistration(data: Bytes) {
    Delivered(data).Some? && Delivered(data).value.1.Registration?
  }

  /** Browsers keep off the id, and no registration of its keypad is forgotten. */
  predicate Careful(s: State, e: Event, id: Bytes) {
    && (e.BrowserRegistration? ==> e.reg.id != Str(id))
    && (e.KeypadFrame? && IsRegistration(e.data) && e.c in s.conns && s.conns[e.c].deviceId == id ==> !Forgets(s, e.c))
  }

  /** Events other than browsers' registrations and forgotten registrations of the keypad. */
  lemma OthersAgree(s: State, e: Event, hmac: Hmac, id: Bytes)
    requires Inv(s, hmac) && Agrees(s, id) && !e.BrowserRegistration?
    requires e.KeypadFrame? && IsRegistration(e.data) && e.c in s.conns && s.conns[e.c].deviceId == id ==>
               !Forgets(s, e.c)
    ensures Agrees(Step(s, e, hmac), id)
  {
    hide Inv, Register, Configure, Frame, Remove, Broadcast, Agrees, Ok, Base, With, SendOffer, Terminate,
         ProofOk;
    InvProofs(s, hmac);
    match e {
      case OpenBrowser(c) => if c !in s.conns { OpenedAgrees(s, Step(s, e, hmac), c, id); }
      case OpenKeypad(c, nonce) => if c !in s.conns { OpenedKeypad(s, c, nonce, id); }
      case BrowserConfiguration(c, to, leds, nonces) =>
        ConfigureAgrees(s, Named(s, Controllers(s), to), leds, nonces, hmac, id);
      case BrowserKey(c, from, text) => TellAgrees(s, Key(from, text), id);
      case PlayerLogin(text) => TellAgrees(s, Login(text), id);
      case KeypadFrame(c, binary, data, env) =>
        if Talking(s, c, true) { FrameAgrees(s, c, binary, data, env, hmac, id); }
      case Offer(c, offer) => OfferAgrees(s, c, offer, id);
      case HealthCheck(c) => TerminateAgrees(s, c, id);
      case Closed(c) => ClosedAgrees(s, c, id);
      case Reloaded(store) => StoreAgrees(s, store, id);
    }
  }

  lemma OpenedKeypad(s: State, c: ConnId, nonce: Bytes, id: Bytes)
    requires Agrees(s, id) && c !in s.conns
    ensures Agrees(Put(s, c, With(NewConn(true).(challenge := Some(nonce)), Sent(AuthChallenge(nonce)))), id)
  {
    hide Agrees;
    OpenedAgrees(s, Put(s, c, With(NewConn(true).(challenge := Some(nonce)), Sent(AuthChallenge(nonce)))), c, id);
  }

  lemma OfferAgrees(s: State, c: ConnId, offer: Offered, id: Bytes)
    requires Agrees(s, id)
    ensures Agrees(SendOffer(s, c, Some(offer)), id)
  {
    hide Agrees, Encodable, Log;
    if c in s.conns {
      LogAgrees(s, c, Sent(OfferFrame(s.conns[c].version, offer)), id);
    }
  }

  lemma StoreAgrees(s: State, store: Credentials.Devices, id: Bytes)
    requires Agrees(s, id)
    ensures Agrees(s.(store := store), id)
  {
    hide Agrees;
    AsideAgrees(s, s.(store := store), id);
  }

  /** Who carries which id among the browsers. */
  ghost predicate SameBrowsers(s: State, t: State) {
    t.conns.Keys == s.conns.Keys && forall k :: k in s.conns && !t.conns[k].keypad ==>
      !s.conns[k].keypad && t.conns[k].controllerId == s.conns[k].controllerId
  }

  lemma MinorBrowsers(s: State, t: State)
    requires Minor(s, t)
    ensures SameBrowsers(s, t)
  {}

  lemma FrameBrowsers(s: State, c: ConnId, binary: bool, data: Bytes, env: Environment, hmac: Hmac)
    requires Ok(s) && Talking(s, c, true)
    ensures SameBrowsers(s, Frame(s, c, binary, data, env, hmac))
  {
    hide Delivered, Authenticate, RegisterKeypad, AcknowledgeLeds, Report, Broadcast, Ok, Apply, SameBrowsers, Minor;
    var conn, t := s.conns[c], Frame(s, c, binary, data, env, hmac);
    if t == Terminate(s, c) {
      OwnBrowsers(s, c, Close, Login([]));
      PlainMoves(conn, conn.version, env.at);
    } else {
      var (version, message) := Delivered(data).value;
      DeliveredId(data);
      match message {
        case AuthResponse(device, mac) => AuthenticateBrowsers(s, c, version, device, mac, env, hmac);
        case Registration(firmware, hardware) => RegistrationBrowsers(s, c, version, firmware, hardware, env, hmac);
        case LedApplied(nonce) =>
          AcknowledgeEffect(s, c, version, nonce, env);
          OwnBrowsers(s, c, Acknowledge(version, nonce, env.at),
                      LedState(Str(conn.deviceId), if conn.pending.Some? then Some(conn.pending.value.leds) else None));
        case ConfigurationReport(nonce, digest) =>
          ReportEffect(s, c, version, nonce, digest, env);
          OwnBrowsers(s, c, Prove(version, nonce, digest, env.at),
                      ConfigurationState(Str(conn.deviceId), Verified(Credentials.ToHex(digest), env.at)));
        case KeyEvent(_, _) =>
          PlainMoves(conn, version, env.at);
          OwnBrowsers(s, c, Press(version, message, env.at), Pressed(Str(conn.deviceId), message.key, message.state));
      }
    }
  }

  lemma OwnBrowsers(s: State, c: ConnId, m: Move, note: Note)
    requires c in s.conns && !Registers(m)
    ensures var put := Put(s, c, Apply(s.conns[c], m)); SameBrowsers(s, put) && SameBrowsers(s, Broadcast(put, note))
  {
    hide Broadcast, Apply, SameBrowsers;
    var put := Put(s, c, Apply(s.conns[c], m));
    SteadyRole(s.conns[c], m);
    BroadcastMinor(put, note);
    MinorThrough(s, put, Broadcast(put, note));
    MinorBrowsers(s, put);
    MinorBrowsers(s, Broadcast(put, note));
  }

  lemma AuthenticateBrowsers(s: State, c: ConnId, version: nat, device: Bytes, mac: Bytes, env: Environment, hmac: Hmac)
    requires Ok(s) && Talking(s, c, true) && !s.conns[c].authenticated && device != []
    ensures SameBrowsers(s, Authenticate(s, c, version, device, mac, env, hmac))
  {
    hide Authenticate, Ok;
    AuthenticateFrame(s, c, version, device, mac, env, hmac);
  }

  lemma RegistrationBrowsers(
      s: State, c: ConnId, version: nat, firmware: Bytes, hardware: Bytes, env: Environment, hmac: Hmac)
    requires Ok(s) && Talking(s, c, true) && s.conns[c].authenticated
    requires version == s.conns[c].version
    ensures SameBrowsers(s, RegisterKeypad(s, c, version, firmware, hardware, env))
  {
    hide RegisterKeypad, Apply, Ok, Enrolled, PresenceOf;
    if s.conns[c].deviceId in s.store {
      KeypadAnnounced(s, c, version, firmware, hardware, env, hmac);
      EnrolledNote(s.conns[c], version, firmware, hardware, env.at);
    } else {
      RegisterUnknownEffect(s, c, version, firmware, hardware, env);
      LapsedLeds(s.conns[c], RegistrationMove(s, s.conns[c], version, firmware, hardware, env));
    }
  }

  lemma RegisterBrowsers(s: State, c: ConnId, r: Reg, id: Bytes)
    requires Ok(s) && Unclaimed(s, id) && Talking(s, c, false) && r.id != Str(id)
    ensures Unclaimed(Register(s, c, r), id)
  {
    hide Register, PresenceOf, Evicted, Hears, Snapshot, Controllers, Base, Unique, RolesOk, SameRole;
    TalkingBrowser(s, c);
    var t, note := Register(s, c, r), PresenceOf(Registering(s.conns[c], r), r.status);
    if IsTruthy(r.receiver) {
      RegisterReceiverEffect(s, c, r);
    } else {
      RegisterControllerEffect(s, c, r);
      forall k | k in s.conns && k != c
        ensures t.conns[k].keypad == s.conns[k].keypad && t.conns[k].controllerId == s.conns[k].controllerId
      {
        SilentRole(s, k, note);
      }
    }
  }

  lemma RemoveBrowsers(s: State, c: ConnId)
    requires Base(s)
    ensures SameBrowsers(s, Remove(s, c))
  {
    hide Remove, Hears, PresenceOf, Announces, Without, Base;
    if c in s.live {
      LiveKnown(s, c);
      RemoveEffect(s, c);
      var gone, note := s.(live := Without(s.live, c)), PresenceOf(s.conns[c], Disconnected);
      forall k | k in s.conns ensures SameRole(s.conns[k], Hears(gone, k, note)) {
        SilentRole(gone, k, note);
      }
    } else {
      NotLive(s, c);
    }
  }

  lemma UnclaimedStays(s: State, t: State, id: Bytes)
    requires Unclaimed(s, id) && SameBrowsers(s, t)
    ensures Unclaimed(t, id)
  {}

  lemma UnclaimedStep(s: State, e: Event, hmac: Hmac, id: Bytes)
    requires Inv(s, hmac) && Unclaimed(s, id) && (e.BrowserRegistration? ==> e.reg.id != Str(id))
    ensures Unclaimed(Step(s, e, hmac), id)
  {
    hide Inv, Register, Configure, Frame, Remove, Broadcast, Unclaimed, Ok, Base, With, SendOffer, Terminate, ProofOk,
         SameBrowsers, Minor;
    InvProofs(s, hmac);
    var t := Step(s, e, hmac);
    MinorSelf(s);
    MinorBrowsers(s, s);
    match e {
      case OpenBrowser(c) => if c !in s.conns { UnclaimedOpen(s, c, [], id); }
      case OpenKeypad(c, nonce) => if c !in s.conns { UnclaimedOpen(s, c, nonce, id); }
      case BrowserRegistration(c, r) => if Talking(s, c, false) { RegisterBrowsers(s, c, r, id); }
      case BrowserConfiguration(c, to, leds, nonces) =>
        ConfigureInv(s, Named(s, Controllers(s), to), leds, nonces, hmac);
        MinorBrowsers(s, Configure(s, Named(s, Controllers(s), to), leds, nonces));
        UnclaimedStays(s, t, id);
      case BrowserKey(c, from, text) => TellBrowsers(s, Key(from, text)); UnclaimedStays(s, t, id);
      case PlayerLogin(text) => TellBrowsers(s, Login(text)); UnclaimedStays(s, t, id);
      case KeypadFrame(c, binary, data, env) =>
        if Talking(s, c, true) { FrameBrowsers(s, c, binary, data, env, hmac); }
        UnclaimedStays(s, t, id);
      case Offer(c, offer) => OfferBrowsers(s, c, offer); UnclaimedStays(s, t, id);
      case HealthCheck(c) => CloseBrowsers(s, c); UnclaimedStays(s, t, id);
      case Closed(c) =>
        CloseBrowsers(s, c);
        TerminateBase(s, c);
        RemoveBrowsers(Terminate(s, c), c);
        UnclaimedStays(s, Terminate(s, c), id);
        UnclaimedStays(Terminate(s, c), Remove(Terminate(s, c), c), id);
      case Reloaded(store) => CloseBrowsers(s, 0); SameStore(s, t); UnclaimedStays(s, t, id);
    }
  }

  lemma UnclaimedOpen(s: State, c: ConnId, nonce: Bytes, id: Bytes)
    requires Unclaimed(s, id) && c !in s.conns
    ensures Unclaimed(Add(Put(s, c, NewConn(false)), c), id)
    ensures Unclaimed(Put(s, c, With(NewConn(true).(challenge := Some(nonce)), Sent(AuthChallenge(nonce)))), id)
  {}

  lemma TellBrowsers(s: State, note: Note)
    ensures SameBrowsers(s, Broadcast(s, note))
  {
    hide Broadcast, Minor, SameBrowsers;
    BroadcastMinor(s, note);
    MinorBrowsers(s, Broadcast(s, note));
  }

  lemma OfferBrowsers(s: State, c: ConnId, offer: Offered)
    ensures SameBrowsers(s, SendOffer(s, c, Some(offer)))
  {
    hide Encodable;
  }

  lemma CloseBrowsers(s: State, c: ConnId)
    ensures SameBrowsers(s, Terminate(s, c))
  {}

  lemma SameStore(s: State, t: State)
    requires t == s.(store := t.store)
    ensures SameBrowsers(s, t)
  {}

  ghost predicate CarefulRun(s: State, events: seq<Event>, hmac: Hmac, id: Bytes)
    decreases |events|
  {
    events == [] || (Careful(s, events[0], id) && CarefulRun(Step(s, events[0], hmac), events[1..], hmac, id))
  }

  /**
   * On every run in which browsers keep off an id and its keypad is not dropped from the credentials while it shows
   * confirmed colours, every receiver shows exactly the colours the server has confirmed.
   */
  lemma {:induction false} AgreesRun(s: State, events: seq<Event>, hmac: Hmac, id: Bytes)
    requires Inv(s, hmac) && Agrees(s, id) && Unclaimed(s, id) && CarefulRun(s, events, hmac, id)
    ensures Agrees(Run(s, events, hmac), id)
    decreases |events|
  {
    hide Inv, Agrees, Unclaimed, Step, Careful;
    if events != [] {
      var t := Step(s, events[0], hmac);
      InvStep(s, events[0], hmac);
      AgreesStep(s, events[0], hmac, id);
      assert events[0].BrowserRegistration? ==> events[0].reg.id != Str(id) by { KeepsOff(s, events[0], id); }
      UnclaimedStep(s, events[0], hmac, id);
      AgreesRun(t, events[1..], hmac, id);
    }
  }

  lemma KeepsOff(s: State, e: Event, id: Bytes)
    requires Careful(s, e, id)
    ensures e.BrowserRegistration? ==> e.reg.id != Str(id)
  {
    hide IsRegistration;
  }

  // ---- Every run, exactly ----

  /** A registration frame that is let through, makes the server forget confirmed colours, and is watched. */
  predicate Loses(s: State, e: Event, id: Bytes) {
    && e.KeypadFrame? && Talking(s, e.c, true) && e.binary && 0 < |e.data| <= MAX_DEVICE_FRAME_SIZE
    && IsRegistration(e.data) && s.conns[e.c].authenticated && Delivered(e.data).value.0 == s.conns[e.c].version
    && s.conns[e.c].deviceId == id && Registered(s, e.c) && Forgets(s, e.c)
    && exists r :: r in s.live && HasFlag(s, r, True)
  }

  lemma ForgottenFrame(s: State, e: Event, hmac: Hmac, id: Bytes)
    requires Ok(s) && Agrees(s, id) && e.KeypadFrame? && Talking(s, e.c, true)
    requires IsRegistration(e.data) && s.conns[e.c].deviceId == id && Forgets(s, e.c)
    ensures Agrees(Step(s, e, hmac), id) <==> !Loses(s, e, id)
  {
    hide Delivered, RegisterKeypad, Agrees, Apply, Base, Unique, Terminate;
    var c, t := e.c, Step(s, e, hmac);
    OkBase(s);
    if t == Terminate(s, c) {
      TerminateAgrees(s, c, id);
      if Loses(s, e, id) {
        LosesRegisters(s, e, hmac);
        LetThrough(s, e, hmac, id);
      }
    } else {
      LetThrough(s, e, hmac, id);
    }
  }

  /** Unless the frame is let through, it only closes the connection. */
  lemma LosesRegisters(s: State, e: Event, hmac: Hmac)
    requires e.KeypadFrame? && Talking(s, e.c, true) && IsRegistration(e.data)
    ensures var m := Delivered(e.data).value.1;
            || Step(s, e, hmac) == Terminate(s, e.c)
            || Step(s, e, hmac) == RegisterKeypad(s, e.c, s.conns[e.c].version, m.firmware, m.hardware, e.env)
    ensures e.binary && 0 < |e.data| <= MAX_DEVICE_FRAME_SIZE && s.conns[e.c].authenticated
            && Delivered(e.data).value.0 == s.conns[e.c].version ==>
              var m := Delivered(e.data).value.1;
              Step(s, e, hmac) == RegisterKeypad(s, e.c, s.conns[e.c].version, m.firmware, m.hardware, e.env)
  {
    hide Delivered, RegisterKeypad, Terminate;
  }

  lemma LetThrough(s: State, e: Event, hmac: Hmac, id: Bytes)
    requires Ok(s) && Agrees(s, id) && e.KeypadFrame? && Talking(s, e.c, true) && IsRegistration(e.data)
    requires s.conns[e.c].deviceId == id && Forgets(s, e.c)
    requires e.binary && 0 < |e.data| <= MAX_DEVICE_FRAME_SIZE && s.conns[e.c].authenticated
    requires Delivered(e.data).value.0 == s.conns[e.c].version
    ensures Agrees(Step(s, e, hmac), id) <==> !Loses(s, e, id)
  {
    hide Delivered, RegisterKeypad, Agrees, Apply, Base, Unique, Step;
    var c, m := e.c, Delivered(e.data).value.1;
    OkBase(s);
    LosesRegisters(s, e, hmac);
    if !Registered(s, c) {
      LapsedAgrees(s, c, s.conns[c].version, m.firmware, m.hardware, e.env, id);
    } else if r :| r in s.live && HasFlag(s, r, True) {
      RegistrationAgreesIff(s, c, s.conns[c].version, m.firmware, m.hardware, e.env, hmac, r);
    } else {
      Unwatched(s, c, s.conns[c].version, m.firmware, m.hardware, e.env, id);
    }
  }

  lemma Unwatched(s: State, c: ConnId, version: nat, firmware: Bytes, hardware: Bytes, env: Environment, id: Bytes)
    requires Base(s) && Talking(s, c, true) && s.conns[c].deviceId !in s.store
    requires forall r :: r in s.live ==> !HasFlag(s, r, True)
    ensures Agrees(RegisterKeypad(s, c, version, firmware, hardware, env), id)
  {
    hide RegisterKeypad, Apply, Base, View;
    RegisterUnknownEffect(s, c, version, firmware, hardware, env);
    BaseRoles(s, c);
    LapsedLeds(s.conns[c], RegistrationMove(s, s.conns[c], version, firmware, hardware, env));
  }

  /**
   * Such a frame, a browser's registration under the id, or a browser that is told last of another one under it, while
   * the keypad shows colours.
   */
  ghost predicate Parts(s: State, e: Event, id: Bytes) {
    || Loses(s, e, id)
    || (e.BrowserRegistration? && Talking(s, e.c, false)
        && (Overwrites(s, e.c, e.reg, id) || Overlaid(s, e.c, e.reg, id)))
  }

  /** Of all events exactly these part a receiver's colours from the server's. */
  lemma AgreesStepExactly(s: State, e: Event, hmac: Hmac, id: Bytes)
    requires Inv(s, hmac) && Agrees(s, id)
    ensures Agrees(Step(s, e, hmac), id) <==> !Parts(s, e, id)
  {
    hide Inv, Agrees, Forgets, IsRegistration, Ok, Base, Frame, Register, Overwrites, Overlaid;
    InvProofs(s, hmac);
    if e.BrowserRegistration? {
      if Talking(s, e.c, false) {
        RegistrationExactly(s, e.c, e.reg, id);
      }
    } else if e.KeypadFrame? && IsRegistration(e.data) && Talking(s, e.c, true) && s.conns[e.c].deviceId == id
              && Forgets(s, e.c) {
      hide Step;
      ForgottenFrame(s, e, hmac, id);
    } else if e.KeypadFrame? && !Talking(s, e.c, true) {
      assert Step(s, e, hmac) == s;
    } else {
      hide Step;
      OthersAgree(s, e, hmac, id);
    }
  }

  /** Where browsers keep off the id, only a forgotten registration can do it. */
  lemma CarefulParts(s: State, e: Event, id: Bytes)
    requires Unclaimed(s, id) && (e.BrowserRegistration? ==> e.reg.id != Str(id))
    ensures Parts(s, e, id) <==> Loses(s, e, id)
  {
    hide Loses, Controllers, Colourful;
  }

  lemma CarefulKeeps(s: State, e: Event, id: Bytes)
    requires Careful(s, e, id)
    ensures !Loses(s, e, id)
  {
    hide IsRegistration, Delivered;
  }

  lemma AgreesStep(s: State, e: Event, hmac: Hmac, id: Bytes)
    requires Inv(s, hmac) && Agrees(s, id) && Unclaimed(s, id) && Careful(s, e, id)
    ensures Agrees(Step(s, e, hmac), id)
  {
    hide *;
    AgreesStepExactly(s, e, hmac, id);
    KeepsOff(s, e, id);
    CarefulParts(s, e, id);
    CarefulKeeps(s, e, id);
  }

  ghost predicate AgreesAlong(s: State, events: seq<Event>, hmac: Hmac, id: Bytes)
    decreases |events|
  {
    Agrees(s, id) && (events == [] || AgreesAlong(Step(s, events[0], hmac), events[1..], hmac, id))
  }

  ghost predicate NoneParts(s: State, events: seq<Event>, hmac: Hmac, id: Bytes)
    decreases |events|
  {
    events == [] || (!Parts(s, events[0], id) && NoneParts(Step(s, events[0], hmac), events[1..], hmac, id))
  }

  /**
   * Colour agreement, exactly: every receiver shows the colours the server has confirmed for the keypad of an id
   * throughout a run if and only if no such event occurs in it.
   */
  lemma {:induction false} AgreesRunExactly(s: State, events: seq<Event>, hmac: Hmac, id: Bytes)
    requires Inv(s, hmac) && Agrees(s, id)
    ensures AgreesAlong(s, events, hmac, id) <==> NoneParts(s, events, hmac, id)
    decreases |events|
  {
    hide Inv, Agrees, Step, Parts;
    if events != [] {
      var t := Step(s, events[0], hmac);
      InvStep(s, events[0], hmac);
      AgreesStepExactly(s, events[0], hmac, id);
      if Parts(s, events[0], id) {
        AlreadyLost(t, events[1..], hmac, id);
      } else {
        AgreesRunExactly(t, events[1..], hmac, id);
      }
    }
  }

  lemma AlreadyLost(s: State, events: seq<Event>, hmac: Hmac, id: Bytes)
    requires !Agrees(s, id)
    ensures !AgreesAlong(s, events, hmac, id)
  {
    hide Agrees, Step;
  }
}
