/** Receivers' views of who is connected agree with the registry. */
module PresenceViews {
  import opened Prelude
  import opened DeviceAuth
  import opened Protocol
  import opened ServerFrames
  import opened Sessions
  import opened SessionRegistry
  import opened SessionMoves
  import opened SessionRuns

  /** A receiver's view: the ids it was told are connected since it last registered. */
  function Present(trace: seq<Entry>): set<Bytes> {
    if trace == [] then {}
    else Seen(Present(trace[..|trace| - 1]), trace[|trace| - 1])
  }

  function Seen(view: set<Bytes>, e: Entry): set<Bytes> {
    match e
    case Joined => {}
    case Told(Presence(Str(id), Connected, _)) => view + {id}
    case Told(Presence(Str(id), Disconnected, _)) => view - {id}
    case _ => view
  }

  /** The ids of the controllers in the registry. */
  function Ids(s: State): set<Bytes> {
    set k | k in s.live && HasFlag(s, k, False) && s.conns[k].controllerId.Str? :: s.conns[k].controllerId.s
  }

  ghost predicate Agrees(s: State) {
    forall r :: r in s.live && HasFlag(s, r, True) ==> Present(s.conns[r].trace) == Ids(s)
  }

  /** A browser registers as a receiver, or as a connected controller of one id it keeps. */
  predicate Disciplined(s: State, e: Event) {
    e.BrowserRegistration? && Talking(s, e.c, false) ==>
      var was, r := s.conns[e.c], e.reg;
      if IsTruthy(r.receiver) then !was.receiver.False?
      else r.receiver.False? && r.status.Connected? && r.id.Str? && (was.receiver.False? ==> r.id == was.controllerId)
  }

  ghost predicate DisciplinedRun(s: State, events: seq<Event>, hmac: Hmac)
    decreases |events|
  {
    events == [] || (Disciplined(s, events[0]) && DisciplinedRun(Step(s, events[0], hmac), events[1..], hmac))
  }

  lemma PresentWith(trace: seq<Entry>, e: Entry)
    ensures Present(trace + [e]) == Seen(Present(trace), e)
  {
    assert (trace + [e])[..|trace|] == trace;
  }

  // ---- Steps that change nobody's role ----

  predicate Neutral(e: Entry) {
    !e.Joined? && !(e.Told? && e.note.Presence?)
  }

  /** A step that adds at most one entry that is not about presence to each record of a browser. */
  ghost predicate Aside(s: State, t: State) {
    && Minor(s, t)
    && forall k :: k in s.conns && !s.conns[k].keypad ==>
         t.conns[k].trace == s.conns[k].trace
         || exists e :: Neutral(e) && t.conns[k].trace == s.conns[k].trace + [e]
  }

  lemma SameIds(s: State, t: State)
    requires Minor(s, t)
    ensures Ids(s) == Ids(t)
  {
    forall id ensures id in Ids(s) <==> id in Ids(t) {
      if id in Ids(s) {
        var k :| k in s.live && HasFlag(s, k, False) && s.conns[k].controllerId == Str(id);
        assert SameRole(s.conns[k], t.conns[k]) && HasFlag(t, k, False);
      }
      if id in Ids(t) {
        var k :| k in t.live && HasFlag(t, k, False) && t.conns[k].controllerId == Str(id);
        assert SameRole(s.conns[k], t.conns[k]) && HasFlag(s, k, False);
      }
    }
  }

  lemma AsideAgrees(s: State, t: State)
    requires Base(s) && Agrees(s) && Aside(s, t)
    ensures Agrees(t)
  {
    hide Ids;
    SameIds(s, t);
    forall r | r in t.live && HasFlag(t, r, True) ensures Present(t.conns[r].trace) == Ids(t) {
      assert SameRole(s.conns[r], t.conns[r]) && RolesOk(s.conns[r]) && HasFlag(s, r, True);
      if t.conns[r].trace != s.conns[r].trace {
        var e :| Neutral(e) && t.conns[r].trace == s.conns[r].trace + [e];
        PresentWith(s.conns[r].trace, e);
      }
    }
  }

  /** A keypad's own record changes, and perhaps the receivers are told of it. */
  lemma TellingAside(s: State, c: ConnId, conn: Conn, note: Note)
    requires c in s.conns && s.conns[c].keypad && SameRole(s.conns[c], conn) && !note.Presence?
    ensures Aside(s, Put(s, c, conn)) && Aside(s, Broadcast(Put(s, c, conn), note))
  {
    hide Broadcast, Hears;
    var t := Put(s, c, conn);
    BroadcastEffect(t, note);
    BroadcastMinor(t, note);
    MinorThrough(s, t, Broadcast(t, note));
    hide Minor, SameRole;
    forall k | k in s.conns && !s.conns[k].keypad
      ensures Hears(t, k, note).trace == s.conns[k].trace || Hears(t, k, note).trace == s.conns[k].trace + [Told(note)]
    {
      HearsTraces(t, k, note);
    }
    assert Neutral(Told(note));
  }

  lemma BroadcastAside(s: State, note: Note)
    requires !note.Presence?
    ensures Aside(s, Broadcast(s, note))
  {
    hide Broadcast;
    BroadcastEffect(s, note);
    BroadcastMinor(s, note);
    assert Neutral(Told(note));
  }

  lemma LogAside(s: State, k: ConnId, e: Entry)
    requires Neutral(e)
    ensures Aside(s, Log(s, k, e))
  {
    LogMinor(s, k, e);
  }

  lemma CommandAside(s: State, k: ConnId, leds: Leds, nonce: Bytes)
    requires Base(s) && k in s.conns && s.conns[k].keypad
    ensures Aside(s, Command(s, k, leds, nonce))
  {
    hide Command, Apply;
    var note := LedState(s.conns[k].controllerId, None);
    CommandEffect(s, k, leds, nonce);
    SteadyRole(s.conns[k], Light(nonce, leds));
    forall j | j in s.conns && j != k ensures SameRole(s.conns[j], Hears(s, j, note)) {
      SilentRole(s, j, note);
    }
    assert Neutral(Told(note));
  }

  lemma {:induction false} ConfigureAgrees(
      s: State, targets: seq<ConnId>, leds: Option<Leds>, nonces: seq<Bytes>, hmac: Hmac)
    requires Inv(s, hmac) && Agrees(s) && Targets(s, targets)
    ensures Agrees(Configure(s, targets, leds, nonces))
    decreases |targets|
  {
    if targets != [] && targets[0] in s.conns {
      var k, conn := targets[0], s.conns[targets[0]];
      assert RolesOk(conn) && HasFlag(s, k, False);
      hide Agrees, Aside, RecordOk, Minor, Targets, Command, Channels, KnownVersion, Log, Base, Unique;
      var t, rest := s, nonces;
      if conn.keypad && conn.version == CONFIGURATION_VERSION {
        if Sendable(leds) && nonces != [] {
          t, rest := Command(s, k, leds.value, nonces[0]), nonces[1..];
          CommandInv(s, k, leds.value, nonces[0], hmac);
          CommandAside(s, k, leds.value, nonces[0]);
        }
      } else if conn.keypad {
        if Sendable(leds) && KnownVersion(conn.version) {
          t := Log(s, k, Sent(Configuration(conn.version, leds.value)));
          LogOldMoves(s, k, leds.value, hmac);
          LogAside(s, k, Sent(Configuration(conn.version, leds.value)));
        }
      } else {
        t := Log(s, k, Told(Forwarded(conn.controllerId, leds)));
        LogBrowser(s, k, Told(Forwarded(conn.controllerId, leds)), hmac);
        LogAside(s, k, Told(Forwarded(conn.controllerId, leds)));
      }
      if Configure(s, targets, leds, nonces) != s {
        AsideAgrees(s, t);
        assert Minor(s, t) by { AsideMinor(s, t); }
        TargetsStay(s, t, targets);
        ConfigureAgrees(t, targets[1..], leds, rest, hmac);
      }
    }
  }

  lemma AsideMinor(s: State, t: State)
    requires Aside(s, t)
    ensures Minor(s, t)
  {}

  // ---- Registrations and departures ----

  /** The ids among `ids` that a snapshot of them announces. */
  function Listed(s: State, ids: seq<ConnId>): set<Bytes> {
    set k | k in ids && k in s.conns && s.conns[k].controllerId.Str? :: s.conns[k].controllerId.s
  }

  lemma {:induction false} SnapshotPresent(s: State, ids: seq<ConnId>, trace: seq<Entry>)
    ensures Present(trace + Snapshot(s, ids)) == Present(trace) + Listed(s, ids)
  {
    if ids == [] {
      assert trace + Snapshot(s, ids) == trace;
    } else {
      var front, k := ids[..|ids| - 1], ids[|ids| - 1];
      SnapshotPresent(s, front, trace);
      assert forall j :: j in ids <==> j in front || j == k;
      if k in s.conns {
        var e := Told(PresenceOf(s.conns[k], Connected));
        assert trace + Snapshot(s, ids) == (trace + Snapshot(s, front)) + [e];
        PresentWith(trace + Snapshot(s, front), e);
        var own := if s.conns[k].controllerId.Str? then {s.conns[k].controllerId.s} else {};
        assert Listed(s, ids) == Listed(s, front) + own;
      } else {
        assert trace + Snapshot(s, ids) == trace + Snapshot(s, front);
        assert Listed(s, ids) == Listed(s, front);
      }
    }
  }

  lemma ListedIds(s: State)
    ensures Listed(s, Controllers(s)) == Ids(s)
  {}

  // ---- A browser's registration, exactly ----

  predicate IsController(s: State, k: ConnId, id: Bytes) {
    k in s.live && HasFlag(s, k, False) && s.conns[k].controllerId == Str(id)
  }

  /** The ids of the other controllers. */
  function OtherIds(s: State, c: ConnId): set<Bytes> {
    set k | k in s.live && k != c && HasFlag(s, k, False) && s.conns[k].controllerId.Str? :: s.conns[k].controllerId.s
  }

  /** The controller ids once browser `c` has registered as `r`. */
  function IdsAfter(s: State, c: ConnId, r: Reg): set<Bytes> {
    OtherIds(s, c) + if r.receiver.False? && r.id.Str? then {r.id.s} else {}
  }

  /** What a receiver that agreed with the registry then believes. */
  function ViewAfter(s: State, r: Reg): set<Bytes> {
    if IsTruthy(r.receiver) || !r.id.Str? then Ids(s)
    else
      match r.status
      case Connected => Ids(s) + {r.id.s}
      case Disconnected => Ids(s) - {r.id.s}
      case OtherStatus => Ids(s)
  }

  predicate OtherReceiver(s: State, c: ConnId) {
    exists k :: k in s.live && k != c && HasFlag(s, k, True)
  }

  /** A browser's registration of which another receiver gets a wrong impression. */
  predicate Misleads(s: State, c: ConnId, r: Reg) {
    OtherReceiver(s, c) && ViewAfter(s, r) != IdsAfter(s, c, r)
  }

  lemma IdsOfRest(s: State, t: State, c: ConnId, r: Reg)
    requires c in s.live && c in s.conns && t.conns.Keys == s.conns.Keys && forall k :: k in t.live <==> k in s.live
    requires forall k :: k in s.conns && k != c ==> SameRole(s.conns[k], t.conns[k])
    requires t.conns[c].receiver == r.receiver && t.conns[c].controllerId == r.id
    ensures Ids(t) == IdsAfter(s, c, r)
  {
    forall id ensures id in Ids(t) <==> id in IdsAfter(s, c, r) {
      if k :| IsController(t, k, id) {
        assert k == c || IsController(s, k, id);
      }
      if k :| IsController(s, k, id) && k != c {
        assert IsController(t, k, id);
      }
      assert r.receiver.False? && r.id == Str(id) ==> IsController(t, c, id);
    }
  }

  lemma NoteSeen(s: State, conn: Conn, r: Reg)
    requires !IsTruthy(r.receiver)
    ensures Seen(Ids(s), Told(PresenceOf(Registering(conn, r), r.status))) == ViewAfter(s, r)
  {}

  /** Everyone but the browser itself, after its registration. */
  lemma RegisteredOthers(s: State, c: ConnId, r: Reg)
    requires Base(s) && Agrees(s) && Talking(s, c, false)
    ensures var t := Register(s, c, r);
            && t.conns.Keys == s.conns.Keys && (forall k :: k in t.live <==> k in s.live) && c in s.live
            && t.conns[c].receiver == r.receiver && t.conns[c].controllerId == r.id
            && (forall k :: k in s.conns && k != c ==> SameRole(s.conns[k], t.conns[k]))
            && (forall k :: k in s.live && k != c && HasFlag(s, k, True) ==>
                 Present(t.conns[k].trace) == ViewAfter(s, r))
  {
    hide Register, Controllers, Snapshot, PresenceOf, Evicted, Hears, Base, ViewAfter, Ids, Present, SameRole;
    var t, note := Register(s, c, r), PresenceOf(Registering(s.conns[c], r), r.status);
    TalkingBrowser(s, c);
    if IsTruthy(r.receiver) {
      RegisterReceiverEffect(s, c, r);
      UnchangedView(s, r);
      forall k | k in s.conns && k != c ensures SameRole(s.conns[k], t.conns[k]) {
        SilentRole(s, k, note);
      }
    } else {
      RegisterControllerEffect(s, c, r);
      NoteSeen(s, s.conns[c], r);
      forall k ensures !Evicted(s, c, r, k) {
        EvictsNobody(s, c, r, k);
      }
      forall k | k in s.conns && k != c
        ensures SameRole(s.conns[k], t.conns[k])
        ensures k in s.live && HasFlag(s, k, True) ==> Present(t.conns[k].trace) == ViewAfter(s, r)
      {
        SilentRole(s, k, note);
        if k in s.live && HasFlag(s, k, True) {
          ReceiverHears(s, k, note);
          PresentWith(s.conns[k].trace, Told(note));
        }
      }
    }
  }

  lemma UnchangedView(s: State, r: Reg)
    requires IsTruthy(r.receiver)
    ensures ViewAfter(s, r) == Ids(s)
  {}

  /** The browser itself, if it now is a receiver, was just told of every controller. */
  lemma OwnView(s: State, c: ConnId, r: Reg)
    requires MayRegister(s, c, r) && r.receiver.True?
    ensures Present(Register(s, c, r).conns[c].trace) == Ids(Put(s, c, Registering(s.conns[c], r)))
  {
    hide Register, Controllers, Snapshot, Listed, Ids;
    var put := Put(s, c, Registering(s.conns[c], r));
    RegisterReceiverEffect(s, c, r);
    PresentWith(s.conns[c].trace, Joined);
    SnapshotPresent(put, Controllers(put), s.conns[c].trace + [Joined]);
    ListedIds(put);
  }

  /**
   * A browser's registration, of whatever kind, keeps every receiver's view right if and only if what the others
   * come to believe is what the registry comes to hold; both follow from the state before it.
   */
  lemma RegistrationAgreesExactly(s: State, c: ConnId, r: Reg)
    requires Base(s) && Agrees(s) && Talking(s, c, false)
    ensures Agrees(Register(s, c, r)) <==> !Misleads(s, c, r)
  {
    hide Register, Ids, Present, IdsAfter, ViewAfter, Base, SameRole;
    var t, put := Register(s, c, r), Put(s, c, Registering(s.conns[c], r));
    RegisteredOthers(s, c, r);
    TalkingBrowser(s, c);
    IdsOfRest(s, t, c, r);
    forall k | k in s.conns && k != c
      ensures SameRole(s.conns[k], put.conns[k]) && t.conns[k].receiver == s.conns[k].receiver
    {
      SilentRole(s, k, Login([]));
      RoleReceiver(s.conns[k], t.conns[k]);
    }
    IdsOfRest(s, put, c, r);
    if r.receiver.True? {
      OwnView(s, c, r);
    }
    if k :| k in s.live && k != c && HasFlag(s, k, True) {
      assert HasFlag(t, k, True);
    }
  }

  lemma RoleReceiver(a: Conn, b: Conn)
    requires SameRole(a, b)
    ensures b.receiver == a.receiver
  {}

  /** A receiver, or a connected controller that keeps its one id, misleads nobody. */
  lemma DisciplinedRegistration(s: State, c: ConnId, r: Reg)
    requires Base(s) && Talking(s, c, false) && Disciplined(s, BrowserRegistration(c, r))
    ensures ViewAfter(s, r) == IdsAfter(s, c, r)
  {
    var was := s.conns[c];
    TalkingBrowser(s, c);
    var own := if was.receiver.False? && was.controllerId.Str? then {was.controllerId.s} else {};
    assert Ids(s) == OtherIds(s, c) + own by {
      forall id ensures id in Ids(s) <==> id in OtherIds(s, c) || (was.receiver.False? && was.controllerId == Str(id)) {
        if k :| IsController(s, k, id) {
          assert k == c || id in OtherIds(s, c);
        }
        assert was.receiver.False? && was.controllerId == Str(id) ==> IsController(s, c, id);
      }
    }
  }

  /** A new controller adds its id, whomever it replaces. */
  lemma ControllerIds(s: State, t: State, c: ConnId, r: Reg)
    requires Base(s) && MayRegister(s, c, r) && r.receiver.False? && r.id.Str?
    requires s.conns[c].receiver.False? ==> s.conns[c].controllerId == r.id
    requires t.conns.Keys == s.conns.Keys && c in t.live && t.conns[c].receiver.False?
    requires t.conns[c].controllerId == r.id
    requires forall k :: k in t.live <==> k in s.live && !Evicted(s, c, r, k)
    requires forall k :: k in s.conns && k != c ==> SameRole(s.conns[k], t.conns[k])
    ensures Ids(t) == Ids(s) + {r.id.s}
  {
    forall id ensures id in Ids(t) <==> id in Ids(s) + {r.id.s} {
      if id in Ids(s) {
        var k :| k in s.live && HasFlag(s, k, False) && s.conns[k].controllerId == Str(id);
        if k in t.live {
          assert k == c || (HasFlag(t, k, False) && t.conns[k].controllerId == Str(id));
        } else {
          assert r.id == Str(id);
        }
      }
      if id in Ids(t) {
        var k :| k in t.live && HasFlag(t, k, False) && t.conns[k].controllerId == Str(id);
        assert k == c || HasFlag(s, k, False);
      }
      assert HasFlag(t, c, False);
    }
  }

  /** A step in which every receiver is told of one change of the ids. */
  lemma ChangeAgrees(s: State, t: State, note: Note)
    requires Agrees(s) && t.conns.Keys == s.conns.Keys && note.Presence?
    requires forall k :: k in t.live && HasFlag(t, k, True) ==>
               k in s.live && HasFlag(s, k, True) && t.conns[k].trace == s.conns[k].trace + [Told(note)]
    requires Ids(t) == Seen(Ids(s), Told(note))
    ensures Agrees(t)
  {
    hide Ids, Seen;
    forall k | k in t.live && HasFlag(t, k, True) ensures Present(t.conns[k].trace) == Ids(t) {
      PresentWith(s.conns[k].trace, Told(note));
    }
  }

  lemma ControllerAgrees(s: State, c: ConnId, r: Reg)
    requires Base(s) && Agrees(s) && MayRegister(s, c, r) && r.receiver.False? && r.id.Str? && r.status.Connected?
    requires s.conns[c].receiver.False? ==> s.conns[c].controllerId == r.id
    ensures Agrees(Register(s, c, r))
  {
    var t, conn := Register(s, c, r), Registering(s.conns[c], r);
    var note := PresenceOf(conn, Connected);
    RegisterControllerEffect(s, c, r);
    assert note.id == r.id && note.status.Connected? && !conn.receiver.True? && t.conns[c].receiver.False?
           && t.conns[c].controllerId == r.id;
    hide Register, Evicted, Ids, Hears, PresenceOf, Registering, Base, Agrees;
    assert !Evicted(s, c, r, c) by { NeverEvictsItself(s, c, r); }
    forall k | k in s.conns && k != c ensures SameRole(s.conns[k], t.conns[k]) {
      SilentRole(s, k, note);
    }
    ControllerIds(s, t, c, r);
    forall k | k in t.live && HasFlag(t, k, True)
      ensures k in s.live && HasFlag(s, k, True) && t.conns[k].trace == s.conns[k].trace + [Told(note)]
    {
      assert SameRole(s.conns[k], t.conns[k]);
      ReceiverHears(s, k, note);
      ReceiverStays(s, c, r, k);
    }
    ChangeAgrees(s, t, note);
  }

  lemma ReceiverHears(s: State, k: ConnId, note: Note)
    requires k in s.live && HasFlag(s, k, True)
    ensures Hears(s, k, note) == With(s.conns[k], Told(note))
  {}

  lemma ReceiverStays(s: State, c: ConnId, r: Reg, k: ConnId)
    requires c in s.conns && HasFlag(s, k, True)
    ensures !Evicted(s, c, r, k)
  {}

  /** The id of a removed controller disappears exactly if no other controller has it. */
  lemma RemovedIds(s: State, c: ConnId)
    requires Base(s) && c in s.live
    ensures Ids(s.(live := Without(s.live, c))) == if Announces(s, c) then Ids(s) - {s.conns[c].controllerId.s}
            else Ids(s)
  {
    var gone := s.(live := Without(s.live, c));
    forall id
      ensures id in Ids(s) <==> id in Ids(gone) || (HasFlag(s, c, False) && s.conns[c].controllerId == Str(id))
    {
      if id in Ids(s) {
        var k :| k in s.live && HasFlag(s, k, False) && s.conns[k].controllerId == Str(id);
        assert k == c || (k in gone.live && HasFlag(gone, k, False));
      }
    }
    if s.conns[c].controllerId.Str? {
      var id := s.conns[c].controllerId.s;
      if Held(gone, Str(id)) {
        var k :| k in gone.live && HasFlag(gone, k, False) && gone.conns[k].controllerId == Str(id);
        assert id in Ids(gone);
      } else {
        assert id !in Ids(gone);
      }
    }
  }

  lemma QuietRemoval(s: State, c: ConnId)
    requires Base(s) && Agrees(s) && c in s.live && !Announces(s, c)
    ensures Agrees(Remove(s, c))
  {
    var gone := s.(live := Without(s.live, c));
    RemovedIds(s, c);
    hide Ids, Without, Held;
    assert Agrees(gone);
    assert Remove(s, c) == gone by { hide RolesOk; }
  }

  /** Who remains after a removal, and what they were told. */
  lemma RemovalHeard(s: State, c: ConnId)
    requires Base(s) && c in s.live && Announces(s, c)
    ensures var t, gone, note := Remove(s, c), s.(live := Without(s.live, c)), PresenceOf(s.conns[c], Disconnected);
            && Minor(gone, t)
            && forall k :: k in t.live && HasFlag(t, k, True) ==>
                 k in s.live && HasFlag(s, k, True) && t.conns[k].trace == s.conns[k].trace + [Told(note)]
  {
    hide Remove, Hears, PresenceOf, Announces, Without, Base, SameRole;
    AnnouncesId(s, c);
    var t, gone, note := Remove(s, c), s.(live := Without(s.live, c)), PresenceOf(s.conns[c], Disconnected);
    RemoveEffect(s, c);
    StillLive(s, c);
    forall k | k in s.conns ensures SameRole(gone.conns[k], t.conns[k]) && t.conns[k].receiver == s.conns[k].receiver {
      SilentRole(gone, k, note);
    }
    forall k | k in t.live && HasFlag(t, k, True)
      ensures k in s.live && HasFlag(s, k, True) && t.conns[k].trace == s.conns[k].trace + [Told(note)]
    {
      ReceiverHears(gone, k, note);
    }
  }

  lemma StillLive(s: State, c: ConnId)
    requires Base(s)
    ensures forall k :: k in Without(s.live, c) ==> k in s.live && k in s.conns
  {}

  lemma RemoveAgrees(s: State, c: ConnId)
    requires Base(s) && Agrees(s) && c in s.live
    ensures Agrees(Remove(s, c))
  {
    hide Remove, Ids, PresenceOf, Agrees, Announces, Without, Base, Minor;
    var t, gone := Remove(s, c), s.(live := Without(s.live, c));
    if Announces(s, c) {
      AnnouncesId(s, c);
      var note := PresenceOf(s.conns[c], Disconnected);
      RemovalHeard(s, c);
      RemoveKeys(s, c);
      RemovedIds(s, c);
      DisconnectNote(s.conns[c]);
      SameIds(gone, t);
      ChangeAgrees(s, t, note);
    } else {
      QuietRemoval(s, c);
    }
  }

  lemma RemoveKeys(s: State, c: ConnId)
    requires Base(s) && c in s.live
    ensures Remove(s, c).conns.Keys == s.conns.Keys
  {
    hide Remove, Hears, PresenceOf, Announces, Without, Base;
    RemoveEffect(s, c);
  }

  lemma AnnouncesId(s: State, c: ConnId)
    requires Announces(s, c)
    ensures c in s.conns && s.conns[c].controllerId.Str?
  {}

  // ---- Every run ----

  lemma AnswerAside(s: State, c: ConnId, firmware: Bytes, accepted: bool, env: Environment)
    requires c in s.conns && s.conns[c].keypad
    ensures Aside(s, Answer(s, c, firmware, accepted, env))
  {
    hide Answer, Proposing, Asking, Accepting;
    AnswerMinor(s, c, firmware, accepted, env);
    AnswerEffect(s, c, firmware, accepted, env);
  }

  lemma KeypadRegistrationAgrees(s: State, c: ConnId, version: nat, firmware: Bytes, hardware: Bytes, env: Environment)
    requires Ok(s) && Agrees(s) && Talking(s, c, true) && s.conns[c].authenticated
    ensures Agrees(RegisterKeypad(s, c, version, firmware, hardware, env))
  {
    hide Register, Answer, Agrees, Unique;
    var conn := s.conns[c];
    var clean := Cleaned(s, c, version, firmware, hardware, env);
    TellingAside(s, c, clean.conns[c], Login([]));
    AsideAgrees(s, clean);
    if conn.deviceId in s.store {
      var r := Dispatched(conn, firmware, hardware);
      MinorOk(s, clean);
      assert RolesOk(conn);
      ControllerAgrees(clean, c, r);
      var u := Register(clean, c, r);
      RegisterOk(clean, c, r);
      assert c in u.conns && u.conns[c].keypad by { RegisterControllerEffect(clean, c, r); }
      AnswerAside(u, c, firmware, Accepts(s, conn.deviceId, firmware, env), env);
      AsideAgrees(u, Answer(u, c, firmware, Accepts(s, conn.deviceId, firmware, env), env));
    }
  }

  lemma AuthenticateAgrees(s: State, c: ConnId, version: nat, id: Bytes, mac: Bytes, env: Environment, hmac: Hmac)
    requires Ok(s) && Agrees(s) && Talking(s, c, true) && !s.conns[c].authenticated && id != []
    ensures Agrees(Authenticate(s, c, version, id, mac, env, hmac))
  {
    hide Authenticate, Ok;
    var t := Authenticate(s, c, version, id, mac, env, hmac);
    AuthenticateFrame(s, c, version, id, mac, env, hmac);
    assert Ids(t) == Ids(s);
  }

  lemma FrameAgrees(s: State, c: ConnId, binary: bool, data: Bytes, env: Environment, hmac: Hmac)
    requires Ok(s) && Agrees(s) && Talking(s, c, true)
    ensures Agrees(Frame(s, c, binary, data, env, hmac))
  {
    hide Agrees, Delivered, Authenticate, RegisterKeypad, AcknowledgeLeds, Report, Broadcast, Encodable, Unique, Apply;
    var conn, t := s.conns[c], Frame(s, c, binary, data, env, hmac);
    if t == Terminate(s, c) {
      TellingAside(s, c, conn.(open := false), Login([]));
      AsideAgrees(s, t);
    } else {
      var (version, message) := Delivered(data).value;
      DeliveredId(data);
      match message {
        case AuthResponse(id, mac) => AuthenticateAgrees(s, c, version, id, mac, env, hmac);
        case Registration(firmware, hardware) => KeypadRegistrationAgrees(s, c, version, firmware, hardware, env);
        case LedApplied(nonce) =>
          AcknowledgeEffect(s, c, version, nonce, env);
          SteadyRole(conn, Acknowledge(version, nonce, env.at));
          TellingAside(s, c, Apply(conn, Acknowledge(version, nonce, env.at)),
                       LedState(Str(conn.deviceId), if conn.pending.Some? then Some(conn.pending.value.leds)
                           else None));
          AsideAgrees(s, t);
        case ConfigurationReport(nonce, digest) =>
          ReportEffect(s, c, version, nonce, digest, env);
          SteadyRole(conn, Prove(version, nonce, digest, env.at));
          TellingAside(s, c, Apply(conn, Prove(version, nonce, digest, env.at)),
                       ConfigurationState(Str(conn.deviceId), Verified(Credentials.ToHex(digest), env.at)));
          AsideAgrees(s, t);
        case KeyEvent(_, _) =>
          TellingAside(s, c, With(conn, Received(version, message, env.at, true)),
              Pressed(Str(conn.deviceId), message.key, message.state));
          AsideAgrees(s, t);
      }
    }
  }

  /** A new connection has no role yet. */
  lemma OpenedAgrees(s: State, t: State, c: ConnId)
    requires Agrees(s) && c !in s.conns && c in t.conns && t.conns[c].receiver.Unset?
    requires t.conns == s.conns[c := t.conns[c]]
    requires forall k :: k in t.live ==> k in s.live || k == c
    requires forall k :: k in s.live ==> k in t.live
    ensures Agrees(t)
  {
    assert Ids(t) == Ids(s);
  }

  /** The only events that part a view from the registry are browsers' registrations that mislead someone. */
  predicate Parts(s: State, e: Event) {
    e.BrowserRegistration? && Talking(s, e.c, false) && Misleads(s, e.c, e.reg)
  }

  /** Every event keeps every receiver's view equal to the registry, exactly unless it is such a registration. */
  lemma AgreesStep(s: State, e: Event, hmac: Hmac)
    requires Inv(s, hmac) && Agrees(s)
    ensures Agrees(Step(s, e, hmac)) <==> !Parts(s, e)
  {
    hide RecordOk, Register, Configure, Frame, Remove, Broadcast, Agrees, Ids, Unique, Misleads;
    var t := Step(s, e, hmac);
    match e {
      case OpenBrowser(c) => if c !in s.conns { OpenedAgrees(s, t, c); }
      case OpenKeypad(c, nonce) => if c !in s.conns { OpenedAgrees(s, t, c); }
      case BrowserRegistration(c, r) =>
        if Talking(s, c, false) { RegistrationAgreesExactly(s, c, r); }
      case BrowserConfiguration(c, id, leds, nonces) =>
        ConfigureAgrees(s, Named(s, Controllers(s), id), leds, nonces, hmac);
      case BrowserKey(c, id, text) => BroadcastAside(s, Key(id, text)); AsideAgrees(s, Broadcast(s, Key(id, text)));
      case PlayerLogin(text) => BroadcastAside(s, Login(text)); AsideAgrees(s, t);
      case KeypadFrame(c, binary, data, env) => if Talking(s, c, true) { FrameAgrees(s, c, binary, data, env, hmac); }
      case Offer(c, offer) =>
        if MayOffer(s, c) {
          LogAside(s, c, Sent(OfferFrame(s.conns[c].version, offer)));
          AsideAgrees(s, Log(s, c, Sent(OfferFrame(s.conns[c].version, offer))));
        }
      case HealthCheck(c) => TerminateAside(s, c); AsideAgrees(s, Terminate(s, c));
      case Closed(c) =>
        if c in s.conns {
          TerminateAside(s, c);
          AsideAgrees(s, Terminate(s, c));
          if c in s.live {
            ClosingBase(s, c);
            RemoveAgrees(Terminate(s, c), c);
          } else {
            NotLive(Terminate(s, c), c);
          }
        }
      case Reloaded(store) => assert Aside(s, t) by { MinorSelf(s); } AsideAgrees(s, t);
    }
  }

  lemma TerminateAside(s: State, c: ConnId)
    ensures Aside(s, Terminate(s, c)) && Terminate(s, c).live == s.live
  {}

  lemma ClosingBase(s: State, c: ConnId)
    requires Base(s)
    ensures Base(Terminate(s, c))
  {}

  /** Every receiver's view is right in every state of the run. */
  ghost predicate AgreesAlong(s: State, events: seq<Event>, hmac: Hmac)
    decreases |events|
  {
    Agrees(s) && (events == [] || AgreesAlong(Step(s, events[0], hmac), events[1..], hmac))
  }

  ghost predicate NoneParts(s: State, events: seq<Event>, hmac: Hmac)
    decreases |events|
  {
    events == [] || (!Parts(s, events[0]) && NoneParts(Step(s, events[0], hmac), events[1..], hmac))
  }

  /**
   * Presence agreement, exactly: every receiver's view is the set of controller ids in the registry throughout a run
   * if and only if no browser's registration in it misleads another receiver.
   */
  lemma {:induction false} AgreesRunExactly(s: State, events: seq<Event>, hmac: Hmac)
    requires Inv(s, hmac) && Agrees(s)
    ensures AgreesAlong(s, events, hmac) <==> NoneParts(s, events, hmac)
    ensures NoneParts(s, events, hmac) ==> Agrees(Run(s, events, hmac))
    decreases |events|
  {
    hide Inv, Agrees, Step, Parts;
    if events != [] {
      var t := Step(s, events[0], hmac);
      InvStep(s, events[0], hmac);
      AgreesStep(s, events[0], hmac);
      if !Parts(s, events[0]) {
        AgreesRunExactly(t, events[1..], hmac);
      } else {
        AlreadyParted(t, events[1..], hmac);
      }
    }
  }

  lemma AlreadyParted(s: State, events: seq<Event>, hmac: Hmac)
    requires !Agrees(s)
    ensures !AgreesAlong(s, events, hmac)
  {}

  /** A disciplined run misleads nobody. */
  lemma {:induction false} DisciplineSuffices(s: State, events: seq<Event>, hmac: Hmac)
    requires Inv(s, hmac) && DisciplinedRun(s, events, hmac)
    ensures NoneParts(s, events, hmac)
    decreases |events|
  {
    if events != [] {
      if Parts(s, events[0]) {
        OkBase(s);
        DisciplinedRegistration(s, events[0].c, events[0].reg);
      }
      hide Inv, Step, Parts, Disciplined;
      InvStep(s, events[0], hmac);
      DisciplineSuffices(Step(s, events[0], hmac), events[1..], hmac);
    }
  }

  /**
   * Presence agreement on every run: while browsers that register as controllers keep one id, every receiver's
   * view is exactly the set of controller ids in the registry.
   */
  lemma AgreesRun(s: State, events: seq<Event>, hmac: Hmac)
    requires Inv(s, hmac) && Agrees(s) && DisciplinedRun(s, events, hmac)
    ensures Agrees(Run(s, events, hmac))
  {
    hide Inv, Agrees, DisciplinedRun, NoneParts, AgreesAlong;
    DisciplineSuffices(s, events, hmac);
    AgreesRunExactly(s, events, hmac);
  }

  /** Nobody else holds the id that a browser gives up. */
  lemma FirstIdGone(s: State, t: State, c: ConnId, first: Value)
    requires first.Str? && c in s.conns && !Held(s.(live := Without(s.live, c)), first)
    requires t.conns.Keys == s.conns.Keys && t.conns[c].controllerId != first
    requires forall k :: k in t.live ==> k in s.live
    requires forall k :: k in s.conns && k != c ==> SameRole(s.conns[k], t.conns[k])
    ensures first.s !in Ids(t)
  {
    var gone := s.(live := Without(s.live, c));
    hide Without;
    assert forall k :: k in t.live && HasFlag(t, k, False) && k != c ==>
             k in gone.live && HasFlag(gone, k, False) && gone.conns[k].controllerId == t.conns[k].controllerId;
  }

  /** Without the discipline the views part: a browser that takes a second id leaves its first one behind. */
  lemma SecondIdLingers(s: State, c: ConnId, r: Reg, receiver: ConnId)
    requires Base(s) && Agrees(s) && Talking(s, c, false) && s.conns[c].receiver.False? && s.conns[c].controllerId.Str?
    requires r.receiver.False? && r.status.Connected? && r.id.Str? && r.id != s.conns[c].controllerId
    requires !Held(s.(live := Without(s.live, c)), s.conns[c].controllerId)
    requires receiver in s.live && HasFlag(s, receiver, True)
    ensures var t, first := Register(s, c, r), s.conns[c].controllerId.s;
            first in Present(t.conns[receiver].trace) && first !in Ids(t)
  {
    hide Register, Evicted, Hears, PresenceOf, SameRole, Ids, Held, Present, Registering, Base;
    var t, conn := Register(s, c, r), Registering(s.conns[c], r);
    var note := PresenceOf(conn, r.status);
    var first := s.conns[c].controllerId;
    TalkingBrowser(s, c);
    RegisterControllerEffect(s, c, r);
    RegisteringFields(s.conns[c], r);
    forall k | k in s.conns && k != c ensures SameRole(s.conns[k], t.conns[k]) {
      SilentRole(s, k, note);
      RoleOfClosed(s.conns[k]);
    }
    FirstIdGone(s, t, c, first);
    ReceiverHears(s, receiver, note);
    ReceiverStays(s, c, r, receiver);
    PresentWith(s.conns[receiver].trace, Told(note));
    OwnId(s, c);
  }

  lemma RegisteringFields(conn: Conn, r: Reg)
    ensures var after := Registering(conn, r);
            && after.controllerId == r.id && after.receiver == r.receiver
            && PresenceOf(after, r.status).Presence? && PresenceOf(after, r.status).id == r.id
               && PresenceOf(after, r.status).status == r.status
  {}

  lemma RoleOfClosed(conn: Conn)
    ensures SameRole(conn, conn.(open := false))
  {}

  lemma OwnId(s: State, c: ConnId)
    requires c in s.live && HasFlag(s, c, False) && s.conns[c].controllerId.Str?
    ensures s.conns[c].controllerId.s in Ids(s)
  {}
}
