/**
 * Every event is at most one move of each keypad connection, and every run keeps the registry and their records in
 * order.
 */
module SessionRuns {
  import opened Prelude
  import Credentials
  import opened DeviceAuth
  import opened Protocol
  import opened ServerFrames
  import opened Sessions
  import opened SessionRegistry
  import opened SessionMoves
  import opened SessionRecords

  // ---- The registry stays in order ----

  predicate SameRole(a: Conn, b: Conn) {
    && b.keypad == a.keypad && b.receiver == a.receiver && b.controllerId == a.controllerId
    && b.authenticated == a.authenticated && b.deviceId == a.deviceId && (b.open ==> a.open)
  }

  /** A step after which everyone still has their role. */
  ghost predicate Minor(s: State, t: State) {
    t.live == s.live && t.conns.Keys == s.conns.Keys && forall k :: k in s.conns ==> SameRole(s.conns[k], t.conns[k])
  }

  lemma MinorOk(s: State, t: State)
    requires Ok(s) && Minor(s, t)
    ensures Ok(t)
  {}

  lemma LogMinor(s: State, c: ConnId, entry: Entry)
    ensures Minor(s, Log(s, c, entry))
  {}

  lemma BroadcastMinor(s: State, note: Note)
    ensures Minor(s, Broadcast(s, note))
  {
    hide Broadcast;
    BroadcastEffect(s, note);
  }

  /** Connections leave the registry only when they are closed, and only `c` changes its role. */
  lemma BaseAfter(s: State, t: State, c: ConnId)
    requires Base(s) && t.conns.Keys == s.conns.Keys && c in s.conns && c in s.live && RolesOk(t.conns[c])
    requires t.conns[c].keypad == s.conns[c].keypad && t.conns[c].authenticated == s.conns[c].authenticated
    requires c in t.live
    requires forall k :: k in s.conns && k != c ==> SameRole(s.conns[k], t.conns[k])
    requires forall k :: k in t.live ==> k in s.live
    requires forall k :: k in s.live && k !in t.live ==> k in t.conns && !t.conns[k].open
    ensures Base(t)
  {}

  lemma UniqueAfter(s: State, t: State, c: ConnId)
    requires Unique(s) && t.conns.Keys == s.conns.Keys && c in s.conns
    requires forall k :: k in s.conns && k != c ==> SameRole(s.conns[k], t.conns[k])
    requires forall k :: k in t.live ==> k in s.live
    requires Registered(t, c) ==>
               forall k :: Registered(s, k) && k in t.live && s.conns[k].deviceId == t.conns[c].deviceId ==> k == c
    ensures Unique(t)
  {
    assert forall k :: Registered(t, k) && k != c ==> Registered(s, k) && s.conns[k].deviceId == t.conns[k].deviceId;
  }

  lemma RegisterOk(s: State, c: ConnId, r: Reg)
    requires Ok(s) && MayRegister(s, c, r) && (s.conns[c].keypad ==> r.status.Connected? && s.conns[c].authenticated)
    ensures Ok(Register(s, c, r))
  {
    hide Register, Snapshot, Controllers, PresenceOf, Hears, Evicted;
    var t := Register(s, c, r);
    assert RolesOk(s.conns[c]);
    if IsTruthy(r.receiver) {
      RegisterReceiverEffect(s, c, r);
    } else {
      RegisterControllerEffect(s, c, r);
      assert !Evicted(s, c, r, c) by { NeverEvictsItself(s, c, r); }
      forall k | k in s.conns && k != c ensures SameRole(s.conns[k], t.conns[k]) {
        SilentRole(s, k, PresenceOf(Registering(s.conns[c], r), r.status));
      }
    }
    hide Base, Unique;
    BaseAfter(s, t, c);
    if !IsTruthy(r.receiver) && Registered(t, c) {
      SoleHolder(s, t, c, r);
    }
    UniqueAfter(s, t, c);
  }

  /** Everyone registered under the id of a newly registered keypad is evicted. */
  lemma SoleHolder(s: State, t: State, c: ConnId, r: Reg)
    requires Base(s) && c in s.conns && s.conns[c].authenticated && r.status.Connected?
    requires r.id == Str(s.conns[c].deviceId)
    requires forall k :: k in t.live ==> k in s.live && !Evicted(s, c, r, k)
    ensures forall k :: Registered(s, k) && k in t.live && s.conns[k].deviceId == s.conns[c].deviceId ==> k == c
  {}

  lemma NeverEvictsItself(s: State, c: ConnId, r: Reg)
    requires c in s.conns
    ensures !Evicted(s, c, r, c)
  {}

  lemma SilentRole(s: State, k: ConnId, note: Note)
    requires k in s.conns
    ensures SameRole(s.conns[k], Hears(s, k, note)) && SameRole(s.conns[k], s.conns[k])
    ensures Hears(s, k, note).open == s.conns[k].open
    ensures var h := Hears(s, k, note);
            h.keypad == s.conns[k].keypad && h.receiver == s.conns[k].receiver
                && h.controllerId == s.conns[k].controllerId
  {}

  lemma AuthenticateOk(s: State, c: ConnId, version: nat, id: Bytes, mac: Bytes, env: Environment, hmac: Hmac)
    requires Ok(s) && Talking(s, c, true) && !s.conns[c].authenticated && id != []
    ensures Ok(Authenticate(s, c, version, id, mac, env, hmac))
  {
    hide Proof;
  }

  lemma AnswerMinor(s: State, c: ConnId, firmware: Bytes, accepted: bool, env: Environment)
    requires c in s.conns
    ensures Minor(s, Answer(s, c, firmware, accepted, env))
  {
    hide Encodable;
  }

  lemma RegisterKeypadOk(s: State, c: ConnId, version: nat, firmware: Bytes, hardware: Bytes, env: Environment)
    requires Ok(s) && Talking(s, c, true) && s.conns[c].authenticated
    ensures Ok(RegisterKeypad(s, c, version, firmware, hardware, env))
  {
    hide Register, Answer;
    var conn := s.conns[c];
    var known := conn.deviceId in s.store;
    var t := Put(s, c, With(Cleared(conn), Received(version, Registration(firmware, hardware), env.at, known)));
    MinorOk(s, t);
    if known {
      var r := Reg(False, Str(conn.deviceId), Connected, Some(firmware), Some(hardware));
      RegisterOk(t, c, r);
      var u := Register(t, c, r);
      if c in u.conns {
        var target := s.store[conn.deviceId].targetVersion;
        var accepted := OrNull(target).None? || (target == Some(firmware) && env.available);
        AnswerMinor(u, c, firmware, accepted, env);
        MinorOk(u, Answer(u, c, firmware, accepted, env));
      }
    }
  }

  // ---- Every event is a move of each keypad ----

  /** The credentials never pin this device to a version. */
  predicate Unpinned(s: State, id: Bytes) {
    id in s.store ==> OrNull(s.store[id].targetVersion).None?
  }

  /**
   * A keypad is enrolled only if it is in the credentials, and accepted at once unless it is pinned. What is recorded
   * as received did arrive.
   */
  predicate AllowedIn(s: State, k: ConnId, m: Move, hmac: Hmac, a: Option<Arrival>)
    requires k in s.conns
  {
    var conn := s.conns[k];
    && Allowed(conn, m, hmac) && Suits(a, k, m)
    && (m.Enrol? ==> conn.deviceId in s.store && (Unpinned(s, conn.deviceId) ==> m.accepted))
  }

  ghost predicate MovedOne(s: State, k: ConnId, after: Conn, hmac: Hmac, a: Option<Arrival>)
    requires k in s.conns
  {
    exists m :: AllowedIn(s, k, m, hmac, a) && after == Apply(s.conns[k], m)
  }

  /** Every keypad makes one move, and only the frame that arrived is recorded. */
  ghost predicate Moved(s: State, t: State, hmac: Hmac, a: Option<Arrival>) {
    forall k :: k in s.conns && s.conns[k].keypad ==> k in t.conns && MovedOne(s, k, t.conns[k], hmac, a)
  }

  /** Keypads are never told anything: they are not receivers. */
  lemma Deaf(s: State, k: ConnId, note: Note)
    requires Base(s) && k in s.conns && s.conns[k].keypad
    ensures Hears(s, k, note) == s.conns[k]
  {}

  lemma Unmoved(s: State, k: ConnId, hmac: Hmac, a: Option<Arrival>)
    requires k in s.conns
    ensures MovedOne(s, k, s.conns[k], hmac, a) && MovedOne(s, k, s.conns[k].(open := false), hmac, a)
  {
    assert AllowedIn(s, k, Idle, hmac, a) && s.conns[k] == Apply(s.conns[k], Idle);
    assert AllowedIn(s, k, Close, hmac, a) && s.conns[k].(open := false) == Apply(s.conns[k], Close);
  }

  /** A step that moves keypad `c`, and at most closes the others. */
  lemma MovesOne(s: State, t: State, c: ConnId, m: Move, hmac: Hmac, a: Option<Arrival>)
    requires Base(s) && s.conns.Keys <= t.conns.Keys
    requires c in s.conns && AllowedIn(s, c, m, hmac, a) && t.conns[c] == Apply(s.conns[c], m)
    requires forall k :: k in s.conns && s.conns[k].keypad && k != c ==>
               t.conns[k] == s.conns[k] || t.conns[k] == s.conns[k].(open := false)
    ensures Moved(s, t, hmac, a)
  {
    hide Allowed, Apply, Suits;
    forall k | k in s.conns && s.conns[k].keypad ensures MovedOne(s, k, t.conns[k], hmac, a) {
      Unmoved(s, k, hmac, a);
    }
  }

  lemma MovesNone(s: State, t: State, hmac: Hmac, a: Option<Arrival>)
    requires Base(s) && s.conns.Keys <= t.conns.Keys
    requires forall k :: k in s.conns && s.conns[k].keypad ==>
               t.conns[k] == s.conns[k] || t.conns[k] == s.conns[k].(open := false)
    ensures Moved(s, t, hmac, a)
  {
    hide Allowed, Apply, Suits;
    forall k | k in s.conns && s.conns[k].keypad ensures MovedOne(s, k, t.conns[k], hmac, a) {
      Unmoved(s, k, hmac, a);
    }
  }

  /** A keypad's new record, followed by a broadcast. */
  lemma MovesAndTells(s: State, c: ConnId, m: Move, note: Note, hmac: Hmac, a: Option<Arrival>)
    requires Base(s) && c in s.conns && s.conns[c].keypad && Allowed(s.conns[c], m, hmac) && !m.Enrol?
    requires Suits(a, c, m)
    requires !Apply(s.conns[c], m).receiver.True?
    ensures Moved(s, Broadcast(Put(s, c, Apply(s.conns[c], m)), note), hmac, a)
    ensures Broadcast(Put(s, c, Apply(s.conns[c], m)), note).live == s.live
    ensures Broadcast(Put(s, c, Apply(s.conns[c], m)), note).conns[c] == Apply(s.conns[c], m)
  {
    hide Broadcast, Allowed, Apply, Suits;
    var t := Put(s, c, Apply(s.conns[c], m));
    BroadcastEffect(t, note);
    forall k | k in s.conns && s.conns[k].keypad && k != c ensures Hears(t, k, note) == s.conns[k] {
      Deaf(s, k, note);
    }
    MovesOne(s, Broadcast(t, note), c, m, hmac, a);
  }

  lemma AuthenticateMoves(s: State, c: ConnId, version: nat, id: Bytes, mac: Bytes, env: Environment, hmac: Hmac)
    requires Ok(s) && Talking(s, c, true) && !s.conns[c].authenticated && id != []
    ensures Moved(s, Authenticate(s, c, version, id, mac, env, hmac), hmac,
            Some(Arrival(c, version, AuthResponse(id, mac), env.at, env.loaded)))
  {
    hide Proof;
    var t := Authenticate(s, c, version, id, mac, env, hmac);
    var conn, a := s.conns[c], Some(Arrival(c, version, AuthResponse(id, mac), env.at, env.loaded));
    if env.loaded.None? || conn.challenge.None? {
      MovesOne(s, t, c, Unavailable(version), hmac, a);
    } else if id !in env.loaded.value || mac != Proof(hmac, env.loaded.value[id].secret, id, conn.challenge.value) {
      MovesOne(s, t, c, Refuse(version), hmac, a);
    } else {
      MovesOne(s, t, c, Enter(version, id, mac, env.at, env.loaded.value[id]), hmac, a);
    }
  }

  lemma AnswerEffect(s: State, c: ConnId, firmware: Bytes, accepted: bool, env: Environment)
    requires c in s.conns
    ensures var t := Answer(s, c, firmware, accepted, env);
            && t.live == s.live && t.conns.Keys == s.conns.Keys && t.store == s.store
            && t.conns[c] == Proposing(Asking(Accepting(s.conns[c], firmware, accepted), env.nonce), env.offer)
            && forall k :: k in s.conns && k != c ==> t.conns[k] == s.conns[k]
  {
    hide Encodable;
  }

  /** Whether a registration is acknowledged as accepted. */
  predicate Accepts(s: State, id: Bytes, firmware: Bytes, env: Environment)
    requires id in s.store
  {
    OrNull(s.store[id].targetVersion).None? || (s.store[id].targetVersion == Some(firmware) && env.available)
  }

  function RegistrationMove(
      s: State, conn: Conn, version: nat, firmware: Bytes, hardware: Bytes, env: Environment): Move {
    if conn.deviceId in s.store then
        Enrol(version, firmware, hardware, env.at, Accepts(s, conn.deviceId, firmware, env), env.nonce, env.offer)
    else Lapse(version, firmware, hardware, env.at)
  }

  /** The registration that a keypad's frame dispatches, on its cleared record. */
  function Cleaned(s: State, c: ConnId, version: nat, firmware: Bytes, hardware: Bytes, env: Environment): State
    requires c in s.conns
  {
    var conn := s.conns[c];
    Put(s, c, With(Cleared(conn),
        Received(version, Registration(firmware, hardware), env.at, conn.deviceId in s.store)))
  }

  function Dispatched(conn: Conn, firmware: Bytes, hardware: Bytes): Reg {
    Reg(False, Str(conn.deviceId), Connected, Some(firmware), Some(hardware))
  }

  lemma DispatchEffect(s: State, c: ConnId, version: nat, firmware: Bytes, hardware: Bytes, env: Environment)
    requires Ok(s) && Talking(s, c, true) && s.conns[c].authenticated && s.conns[c].deviceId in s.store
    ensures var conn, r := s.conns[c], Dispatched(s.conns[c], firmware, hardware);
            var t := Register(Cleaned(s, c, version, firmware, hardware, env), c, r);
            && t.store == s.store && t.conns.Keys == s.conns.Keys
            && (forall k :: k in t.live <==> k in s.live && !Evicted(s, c, r, k))
            && t.conns[c] == Enrolled(conn, version, firmware, hardware, env.at)
            && forall k :: k in s.conns && k != c ==>
                 t.conns[k] == if Evicted(s, c, r, k) then s.conns[k].(open := false)
                               else Hears(s, k,
                                   PresenceOf(Enrolled(conn, version, firmware, hardware, env.at), Connected))
  {
    hide Register, Evicted, Hears, PresenceOf;
    var conn := s.conns[c];
    var r := Dispatched(conn, firmware, hardware);
    var t := Cleaned(s, c, version, firmware, hardware, env);
    var note := PresenceOf(Enrolled(conn, version, firmware, hardware, env.at), Connected);
    MinorOk(s, t);
    RegisterControllerEffect(t, c, r);
    assert Registering(t.conns[c], r) == Enrolled(conn, version, firmware, hardware, env.at);
    hide Base, Unique, Cleared, Enrolled;
    forall k | k in s.conns && k != c
      ensures Evicted(t, c, r, k) == Evicted(s, c, r, k) && Hears(t, k, note) == Hears(s, k, note)
    {
      EvictedFrame(s, t, c, r, k);
      HearsFrame(s, t, k, note);
    }
    NeverEvictsItself(s, c, r);
    NeverEvictsItself(t, c, r);
  }

  /**
   * What a keypad's registration does to everyone. If the keypad is still in the credentials: it is enrolled, the
   * keypad it replaces is closed, and every receiver is told of it once.
   */
  lemma RegisterKeypadEffect(s: State, c: ConnId, version: nat, firmware: Bytes, hardware: Bytes, env: Environment)
    requires Ok(s) && Talking(s, c, true) && s.conns[c].authenticated && s.conns[c].deviceId in s.store
    ensures var conn, r := s.conns[c], Dispatched(s.conns[c], firmware, hardware);
            var t := RegisterKeypad(s, c, version, firmware, hardware, env);
            && t.store == s.store && t.conns.Keys == s.conns.Keys
            && (forall k :: k in t.live <==> k in s.live && !Evicted(s, c, r, k))
            && t.conns[c] == Apply(conn, RegistrationMove(s, conn, version, firmware, hardware, env))
            && forall k :: k in s.conns && k != c ==>
                 t.conns[k] == if Evicted(s, c, r, k) then s.conns[k].(open := false)
                               else Hears(s, k,
                                   PresenceOf(Enrolled(conn, version, firmware, hardware, env.at), Connected))
  {
    hide Register, Answer, Evicted, Hears, PresenceOf, Proposing, Asking, Accepting, Enrolled, Ok;
    var conn := s.conns[c];
    var u := Register(Cleaned(s, c, version, firmware, hardware, env), c, Dispatched(conn, firmware, hardware));
    DispatchEffect(s, c, version, firmware, hardware, env);
    AnswerEffect(u, c, firmware, Accepts(s, conn.deviceId, firmware, env), env);
    assert RegisterKeypad(s, c, version, firmware, hardware, env) ==
           Answer(u, c, firmware, Accepts(s, conn.deviceId, firmware, env), env);
  }

  /** A keypad that is no longer in the credentials only has its own record cleared: the handler throws. */
  lemma RegisterUnknownEffect(s: State, c: ConnId, version: nat, firmware: Bytes, hardware: Bytes, env: Environment)
    requires Talking(s, c, true) && s.conns[c].deviceId !in s.store
    ensures RegisterKeypad(s, c, version, firmware, hardware, env) ==
            Put(s, c, Apply(s.conns[c], RegistrationMove(s, s.conns[c], version, firmware, hardware, env)))
  {}

  lemma EvictedFrame(s: State, t: State, c: ConnId, r: Reg, k: ConnId)
    requires c in s.conns && c in t.conns && t.live == s.live && k in s.conns && k in t.conns
    requires t.conns[c].authenticated == s.conns[c].authenticated && t.conns[k] == s.conns[k]
    ensures Evicted(t, c, r, k) == Evicted(s, c, r, k)
  {}

  lemma RegisterKeypadMoves(
      s: State, c: ConnId, version: nat, firmware: Bytes, hardware: Bytes, env: Environment, hmac: Hmac)
    requires Ok(s) && Talking(s, c, true) && s.conns[c].authenticated
    requires version == s.conns[c].version
    ensures Moved(s, RegisterKeypad(s, c, version, firmware, hardware, env), hmac,
            Some(Arrival(c, version, Registration(firmware, hardware), env.at, env.loaded)))
  {
    hide RegisterKeypad, Evicted, Hears, PresenceOf, Apply, Enrolled;
    var t := RegisterKeypad(s, c, version, firmware, hardware, env);
    if s.conns[c].deviceId in s.store {
      RegisterKeypadEffect(s, c, version, firmware, hardware, env);
      forall k | k in s.conns && s.conns[k].keypad && k != c
        ensures t.conns[k] == s.conns[k] || t.conns[k] == s.conns[k].(open := false)
      {
        Deaf(s, k, PresenceOf(Enrolled(s.conns[c], version, firmware, hardware, env.at), Connected));
      }
    } else {
      RegisterUnknownEffect(s, c, version, firmware, hardware, env);
    }
    MovesOne(s, t, c, RegistrationMove(s, s.conns[c], version, firmware, hardware, env), hmac,
        Some(Arrival(c, version, Registration(firmware, hardware), env.at, env.loaded)));
  }

  lemma AcknowledgeEffect(s: State, c: ConnId, version: nat, nonce: Bytes, env: Environment)
    requires c in s.conns
    ensures var conn := s.conns[c];
            var t := Put(s, c, Apply(conn, Acknowledge(version, nonce, env.at)));
            AcknowledgeLeds(s, c, version, nonce, env) ==
            if HasId(conn) && conn.pending.Some? && conn.pending.value.nonce == nonce
            then Broadcast(t, LedState(Str(conn.deviceId), Some(conn.pending.value.leds))) else t
  {
    hide Broadcast, HasId;
    var conn := s.conns[c];
    var logged := With(conn, Received(version, LedApplied(nonce), env.at, true));
    PutTwice(s, c, logged, Apply(conn, Acknowledge(version, nonce, env.at)));
  }

  lemma ReportEffect(s: State, c: ConnId, version: nat, nonce: Bytes, digest: Bytes, env: Environment)
    requires c in s.conns
    ensures var conn := s.conns[c];
            var t := Put(s, c, Apply(conn, Prove(version, nonce, digest, env.at)));
            Report(s, c, version, nonce, digest, env) ==
            if HasId(conn) && conn.query == Some(nonce)
            then Broadcast(t, ConfigurationState(Str(conn.deviceId), Verified(Credentials.ToHex(digest), env.at)))
                else t
  {
    hide Broadcast, HasId, Credentials.ToHex;
    var conn := s.conns[c];
    var matches := HasId(conn) && conn.query == Some(nonce);
    var logged := With(conn, Received(version, ConfigurationReport(nonce, digest), env.at, matches));
    PutTwice(s, c, logged, Apply(conn, Prove(version, nonce, digest, env.at)));
  }

  lemma TellingMinor(s: State, c: ConnId, conn: Conn, note: Note)
    requires Ok(s) && c in s.conns && SameRole(s.conns[c], conn)
    ensures Ok(Put(s, c, conn)) && Ok(Broadcast(Put(s, c, conn), note))
  {
    hide Ok, Broadcast;
    MinorOk(s, Put(s, c, conn));
    BroadcastMinor(Put(s, c, conn), note);
    MinorOk(Put(s, c, conn), Broadcast(Put(s, c, conn), note));
  }

  /** No connection appears, and none changes its kind. */
  ghost predicate SameKinds(s: State, t: State) {
    t.conns.Keys == s.conns.Keys && forall k :: k in s.conns ==> t.conns[k].keypad == s.conns[k].keypad
  }

  lemma AuthenticateFrame(s: State, c: ConnId, version: nat, id: Bytes, mac: Bytes, env: Environment, hmac: Hmac)
    requires Ok(s) && Talking(s, c, true) && !s.conns[c].authenticated && id != []
    ensures var t := Authenticate(s, c, version, id, mac, env, hmac);
            && t.conns.Keys == s.conns.Keys && (forall k :: k in s.conns && k != c ==> t.conns[k] == s.conns[k])
            && (forall k :: k in t.live ==> k in s.live || k == c) && (forall k :: k in s.live ==> k in t.live)
            && t.conns[c].keypad && t.conns[c].receiver.Unset? && s.conns[c].receiver.Unset?
  {
    hide Proof;
    assert RolesOk(s.conns[c]);
  }

  lemma AuthenticateKinds(s: State, c: ConnId, version: nat, id: Bytes, mac: Bytes, env: Environment, hmac: Hmac)
    requires c in s.conns
    ensures SameKinds(s, Authenticate(s, c, version, id, mac, env, hmac))
  {
    hide Proof;
  }

  lemma RegisterKeypadKinds(s: State, c: ConnId, version: nat, firmware: Bytes, hardware: Bytes, env: Environment)
    requires Ok(s) && Talking(s, c, true) && s.conns[c].authenticated
    ensures SameKinds(s, RegisterKeypad(s, c, version, firmware, hardware, env))
  {
    hide RegisterKeypad, Evicted, Hears, PresenceOf, Apply, Allowed;
    var conn, m := s.conns[c], RegistrationMove(s, s.conns[c], version, firmware, hardware, env);
    assert Apply(conn, m).keypad == conn.keypad by { ApplyKind(conn, m); }
    if conn.deviceId in s.store {
      RegisterKeypadEffect(s, c, version, firmware, hardware, env);
      var note := PresenceOf(Enrolled(conn, version, firmware, hardware, env.at), Connected);
      forall k | k in s.conns ensures Hears(s, k, note).keypad == s.conns[k].keypad {
        SilentRole(s, k, note);
      }
    } else {
      RegisterUnknownEffect(s, c, version, firmware, hardware, env);
    }
  }

  lemma ApplyKind(conn: Conn, m: Move)
    ensures Apply(conn, m).keypad == conn.keypad
  {
    if Registers(m) {
      hide Encodable;
    } else {
      hide Apply;
      SteadyMove(conn, m);
    }
  }

  lemma SteadyRole(conn: Conn, m: Move)
    requires !Registers(m)
    ensures SameRole(conn, Apply(conn, m))
  {
    hide Apply;
    SteadyMove(conn, m);
  }

  /** A move of an authenticated keypad that only touches its own record, and perhaps tells the receivers. */
  lemma OwnMove(s: State, t: State, c: ConnId, m: Move, note: Note, hmac: Hmac, a: Option<Arrival>)
    requires Ok(s) && c in s.conns && s.conns[c].keypad && Allowed(s.conns[c], m, hmac)
    requires !Registers(m) && Suits(a, c, m)
    requires t == Put(s, c, Apply(s.conns[c], m)) || t == Broadcast(Put(s, c, Apply(s.conns[c], m)), note)
    ensures Ok(t) && Moved(s, t, hmac, a) && SameKinds(s, t)
  {
    hide Broadcast, Allowed, Apply, Suits;
    SteadyRole(s.conns[c], m);
    BroadcastMinor(Put(s, c, Apply(s.conns[c], m)), note);
    TellingMinor(s, c, Apply(s.conns[c], m), note);
    MovesAndTells(s, c, m, note, hmac, a);
    MovesOne(s, Put(s, c, Apply(s.conns[c], m)), c, m, hmac, a);
  }

  /** The record of a frame's message, for the messages that change no one's role. */
  lemma FrameMoves(s: State, c: ConnId, binary: bool, data: Bytes, env: Environment, hmac: Hmac)
    requires Ok(s) && Talking(s, c, true)
    ensures var t := Frame(s, c, binary, data, env, hmac);
            Ok(t) && Moved(s, t, hmac, Arriving(KeypadFrame(c, binary, data, env))) && SameKinds(s, t)
  {
    hide Ok, Moved, SameKinds, Delivered, Authenticate, RegisterKeypad, AcknowledgeLeds, Report, Broadcast, Encodable,
         Proof;
    var conn, t := s.conns[c], Frame(s, c, binary, data, env, hmac);
    var quiet, a := Login([]), Arriving(KeypadFrame(c, binary, data, env));
    if t == Terminate(s, c) {
      OwnMove(s, t, c, Close, quiet, hmac, a);
    } else {
      var (version, message) := Delivered(data).value;
      DeliveredId(data);
      match message {
        case AuthResponse(id, mac) =>
          AuthenticateOk(s, c, version, id, mac, env, hmac);
          AuthenticateMoves(s, c, version, id, mac, env, hmac);
          AuthenticateKinds(s, c, version, id, mac, env, hmac);
        case Registration(firmware, hardware) =>
          RegisterKeypadOk(s, c, version, firmware, hardware, env);
          RegisterKeypadMoves(s, c, version, firmware, hardware, env, hmac);
          RegisterKeypadKinds(s, c, version, firmware, hardware, env);
        case LedApplied(nonce) =>
          AcknowledgeEffect(s, c, version, nonce, env);
          OwnMove(s, t, c, Acknowledge(version, nonce, env.at),
                  LedState(Str(conn.deviceId), if conn.pending.Some? then Some(conn.pending.value.leds) else None),
                  hmac, a);
        case ConfigurationReport(nonce, digest) =>
          ReportEffect(s, c, version, nonce, digest, env);
          OwnMove(s, t, c, Prove(version, nonce, digest, env.at),
                  ConfigurationState(Str(conn.deviceId), Verified(Credentials.ToHex(digest), env.at)), hmac, a);
        case KeyEvent(_, _) =>
          OwnMove(s, t, c, Press(version, message, env.at), Pressed(Str(conn.deviceId), message.key, message.state),
                  hmac, a);
      }
    }
  }

  // ---- Commands ----

  lemma CommandEffect(s: State, k: ConnId, leds: Leds, nonce: Bytes)
    requires Base(s) && k in s.conns && s.conns[k].keypad
    ensures var t, note := Command(s, k, leds, nonce), LedState(s.conns[k].controllerId, None);
            && t.live == s.live && t.store == s.store && t.conns.Keys == s.conns.Keys
            && t.conns[k] == Apply(s.conns[k], Light(nonce, leds))
            && forall j :: j in s.conns && j != k ==> t.conns[j] == Hears(s, j, note)
  {
    hide Broadcast;
    var conn, note := s.conns[k], LedState(s.conns[k].controllerId, None);
    var t := Put(s, k, conn.(pending := Some(Pending(nonce, leds)), applied := None));
    BroadcastEffect(t, note);
    assert Hears(t, k, note) == t.conns[k];
    forall j | j in s.conns && j != k ensures Hears(t, j, note) == Hears(s, j, note) {
      HearsFrame(s, t, j, note);
    }
  }

  /** A keypad controller that takes LED commands. */
  predicate Commandable(s: State, k: ConnId) {
    && k in s.conns && s.conns[k].keypad && s.conns[k].receiver.False? && s.conns[k].version == CONFIGURATION_VERSION
  }

  lemma ControllerHasId(s: State, k: ConnId)
    requires Base(s) && Commandable(s, k)
    ensures HasId(s.conns[k]) && s.conns[k].authenticated
  {
    assert RolesOk(s.conns[k]);
  }

  lemma CommandMoves(s: State, k: ConnId, leds: Leds, nonce: Bytes, hmac: Hmac)
    requires Ok(s) && Commandable(s, k)
    ensures var t := Command(s, k, leds, nonce); Ok(t) && Moved(s, t, hmac, None)
  {
    hide Command, Hears, Apply;
    var t, note := Command(s, k, leds, nonce), LedState(s.conns[k].controllerId, None);
    CommandEffect(s, k, leds, nonce);
    ControllerHasId(s, k);
    SteadyRole(s.conns[k], Light(nonce, leds));
    forall j | j in s.conns && j != k
      ensures SameRole(s.conns[j], t.conns[j]) && (s.conns[j].keypad ==> t.conns[j] == s.conns[j])
    {
      SilentRole(s, j, note);
      if s.conns[j].keypad {
        Deaf(s, j, note);
      }
    }
    MinorOk(s, t);
    MovesOne(s, t, k, Light(nonce, leds), hmac, None);
  }

  // ---- The invariant of all runs ----

  ghost predicate RecordOk(conn: Conn, hmac: Hmac) {
    IdentityOk(conn, hmac) && LedsOk(conn) && ProofOk(conn)
  }

  ghost predicate Inv(s: State, hmac: Hmac) {
    Ok(s) && forall k :: k in s.conns && s.conns[k].keypad ==> RecordOk(s.conns[k], hmac)
  }

  lemma RecordMove(conn: Conn, m: Move, hmac: Hmac)
    requires RecordOk(conn, hmac) && Allowed(conn, m, hmac)
    ensures RecordOk(Apply(conn, m), hmac) && Apply(conn, m).keypad == conn.keypad
  {
    ApplyKind(conn, m);
    hide IdentityOk, LedsOk, ProofOk, Allowed, Apply;
    IdentityMove(conn, m, hmac);
    LedsMove(conn, m, hmac);
    ProofMove(conn, m, hmac);
  }

  /** Moved keypads keep their records in order, and new connections start in order. */
  lemma MovedInv(s: State, t: State, hmac: Hmac, a: Option<Arrival>)
    requires Inv(s, hmac) && Ok(t) && Moved(s, t, hmac, a)
    requires forall k :: k in t.conns && t.conns[k].keypad ==>
               (k in s.conns && s.conns[k].keypad) || RecordOk(t.conns[k], hmac)
    ensures Inv(t, hmac)
  {
    hide Ok, RecordOk, Allowed, Apply;
    forall k | k in t.conns && t.conns[k].keypad ensures RecordOk(t.conns[k], hmac) {
      if k in s.conns && s.conns[k].keypad {
        var m :| AllowedIn(s, k, m, hmac, a) && t.conns[k] == Apply(s.conns[k], m);
        RecordMove(s.conns[k], m, hmac);
      }
    }
  }

  lemma LogOldMoves(s: State, k: ConnId, leds: Leds, hmac: Hmac)
    requires Inv(s, hmac) && k in s.conns && s.conns[k].keypad && s.conns[k].authenticated
    requires s.conns[k].version != CONFIGURATION_VERSION
    ensures Inv(Log(s, k, Sent(Configuration(s.conns[k].version, leds))), hmac)
  {
    hide RecordOk;
    var t := Log(s, k, Sent(Configuration(s.conns[k].version, leds)));
    LogMinor(s, k, Sent(Configuration(s.conns[k].version, leds)));
    MinorOk(s, t);
    MovesOne(s, t, k, LightOld(leds), hmac, None);
    MovedInv(s, t, hmac, None);
  }

  lemma LogBrowser(s: State, k: ConnId, entry: Entry, hmac: Hmac)
    requires Inv(s, hmac) && k in s.conns && !s.conns[k].keypad
    ensures Inv(Log(s, k, entry), hmac)
  {
    hide RecordOk;
    LogMinor(s, k, entry);
    MinorOk(s, Log(s, k, entry));
  }

  lemma CommandInv(s: State, k: ConnId, leds: Leds, nonce: Bytes, hmac: Hmac)
    requires Inv(s, hmac) && Commandable(s, k)
    ensures Inv(Command(s, k, leds, nonce), hmac) && Minor(s, Command(s, k, leds, nonce))
  {
    hide Command, RecordOk, Unique, Apply, Hears;
    var t, note := Command(s, k, leds, nonce), LedState(s.conns[k].controllerId, None);
    CommandMoves(s, k, leds, nonce, hmac);
    CommandEffect(s, k, leds, nonce);
    SteadyRole(s.conns[k], Light(nonce, leds));
    forall j | j in s.conns && j != k ensures SameRole(s.conns[j], t.conns[j]) {
      SilentRole(s, j, note);
    }
    MovedInv(s, t, hmac, None);
  }

  /** The targets of a configuration message: controllers, so authenticated if they are keypads. */
  ghost predicate Targets(s: State, targets: seq<ConnId>) {
    forall k :: k in targets ==> HasFlag(s, k, False)
  }

  lemma MinorThrough(s: State, t: State, u: State)
    requires Minor(s, t) && Minor(t, u)
    ensures Minor(s, u)
  {}

  lemma TargetsStay(s: State, t: State, targets: seq<ConnId>)
    requires Targets(s, targets) && Minor(s, t) && targets != []
    ensures Targets(t, targets[1..])
  {
    forall k | k in targets[1..] ensures HasFlag(t, k, False) {
      assert k in targets && SameRole(s.conns[k], t.conns[k]);
    }
  }

  lemma {:induction false} ConfigureInv(
      s: State, targets: seq<ConnId>, leds: Option<Leds>, nonces: seq<Bytes>, hmac: Hmac)
    requires Inv(s, hmac) && Targets(s, targets)
    ensures Inv(Configure(s, targets, leds, nonces), hmac) && Minor(s, Configure(s, targets, leds, nonces))
    decreases |targets|
  {
    if targets != [] && targets[0] in s.conns {
      var k, conn := targets[0], s.conns[targets[0]];
      assert RolesOk(conn) && HasFlag(s, k, False);
      hide Inv, Minor, Targets, Command, Channels, KnownVersion, Log;
      var t, rest := s, nonces;
      if conn.keypad && conn.version == CONFIGURATION_VERSION {
        if Sendable(leds) && nonces != [] {
          t, rest := Command(s, k, leds.value, nonces[0]), nonces[1..];
          CommandInv(s, k, leds.value, nonces[0], hmac);
        }
      } else if conn.keypad {
        if Sendable(leds) && KnownVersion(conn.version) {
          t := Log(s, k, Sent(Configuration(conn.version, leds.value)));
          LogOldMoves(s, k, leds.value, hmac);
          LogMinor(s, k, Sent(Configuration(conn.version, leds.value)));
        }
      } else {
        t := Log(s, k, Told(Forwarded(conn.controllerId, leds)));
        LogBrowser(s, k, Told(Forwarded(conn.controllerId, leds)), hmac);
        LogMinor(s, k, Told(Forwarded(conn.controllerId, leds)));
      }
      MinorSelf(s);
      if Configure(s, targets, leds, nonces) != s {
        TargetsStay(s, t, targets);
        ConfigureInv(t, targets[1..], leds, rest, hmac);
        MinorThrough(s, t, Configure(t, targets[1..], leds, rest));
      }
    } else {
      MinorSelf(s);
    }
  }

  lemma MinorSelf(s: State)
    ensures Minor(s, s)
  {}

  // ---- Every event ----

  lemma OpenBrowserInv(s: State, c: ConnId, hmac: Hmac)
    requires Inv(s, hmac) && c !in s.conns
    ensures Inv(Add(Put(s, c, NewConn(false)), c), hmac)
  {
    hide RecordOk;
    var t := Add(Put(s, c, NewConn(false)), c);
    assert t.live == s.live + [c] && t.conns == s.conns[c := NewConn(false)];
  }

  lemma OpenKeypadInv(s: State, c: ConnId, nonce: Bytes, hmac: Hmac)
    requires Inv(s, hmac) && c !in s.conns
    ensures Inv(Put(s, c, With(NewConn(true).(challenge := Some(nonce)), Sent(AuthChallenge(nonce)))), hmac)
  {
    hide RecordOk;
    FreshRecord(nonce, hmac);
  }

  lemma FreshRecord(nonce: Bytes, hmac: Hmac)
    ensures RecordOk(With(NewConn(true).(challenge := Some(nonce)), Sent(AuthChallenge(nonce))), hmac)
  {
    hide Asked, Proven, Proof;
  }

  /** A step in which the registry stays in order and every keypad makes one move. */
  ghost predicate Goes(s: State, t: State, hmac: Hmac, a: Option<Arrival>) {
    Ok(t) && Moved(s, t, hmac, a) && SameKinds(s, t)
  }

  lemma GoesQuietly(s: State, t: State, hmac: Hmac, a: Option<Arrival>)
    requires Base(s) && Ok(t) && SameKinds(s, t)
    requires forall k :: k in s.conns && s.conns[k].keypad ==>
               t.conns[k] == s.conns[k] || t.conns[k] == s.conns[k].(open := false)
    ensures Goes(s, t, hmac, a)
  {
    hide Ok, Moved, Base;
    MovesNone(s, t, hmac, a);
  }

  lemma TalkingBrowser(s: State, c: ConnId)
    requires Base(s) && Talking(s, c, false)
    ensures RolesOk(s.conns[c]) && c in s.live && !s.conns[c].authenticated
  {}

  lemma BrowserRegistrationGoes(s: State, c: ConnId, r: Reg, hmac: Hmac)
    requires Ok(s) && Talking(s, c, false)
    ensures Goes(s, Register(s, c, r), hmac, None)
  {
    hide Register, Evicted, Hears, Snapshot, Controllers, PresenceOf, Base, Unique, RolesOk, SameRole;
    var t, note := Register(s, c, r), PresenceOf(Registering(s.conns[c], r), r.status);
    TalkingBrowser(s, c);
    RegisterOk(s, c, r);
    if IsTruthy(r.receiver) {
      RegisterReceiverEffect(s, c, r);
    } else {
      RegisterControllerEffect(s, c, r);
      forall k | k in s.conns && k != c
        ensures t.conns[k].keypad == s.conns[k].keypad && (s.conns[k].keypad ==> t.conns[k] == s.conns[k])
      {
        EvictsNobody(s, c, r, k);
        HearsKind(s, k, note);
      }
    }
    GoesQuietly(s, t, hmac, None);
  }

  lemma HearsKind(s: State, k: ConnId, note: Note)
    requires Base(s) && k in s.conns
    ensures Hears(s, k, note).keypad == s.conns[k].keypad && (s.conns[k].keypad ==> Hears(s, k, note) == s.conns[k])
  {
    assert RolesOk(s.conns[k]);
  }

  /** Browsers replace nobody. */
  lemma EvictsNobody(s: State, c: ConnId, r: Reg, k: ConnId)
    requires c in s.conns && !s.conns[c].authenticated
    ensures !Evicted(s, c, r, k)
  {}

  lemma BroadcastGoes(s: State, note: Note, hmac: Hmac)
    requires Ok(s)
    ensures Goes(s, Broadcast(s, note), hmac, None)
  {
    hide Broadcast, Hears, Minor, Base, Unique;
    BroadcastEffect(s, note);
    BroadcastMinor(s, note);
    MinorOk(s, Broadcast(s, note));
    forall k | k in s.conns
      ensures Hears(s, k, note).keypad == s.conns[k].keypad && (s.conns[k].keypad ==> Hears(s, k, note) == s.conns[k])
    {
      HearsKind(s, k, note);
    }
    GoesQuietly(s, Broadcast(s, note), hmac, None);
  }

  lemma TerminateGoes(s: State, c: ConnId, hmac: Hmac)
    requires Ok(s)
    ensures Goes(s, Terminate(s, c), hmac, None) && Terminate(s, c).live == s.live
  {
    hide Base, Unique;
    MinorOk(s, Terminate(s, c));
    GoesQuietly(s, Terminate(s, c), hmac, None);
  }

  lemma ClosedGoes(s: State, c: ConnId, hmac: Hmac)
    requires Ok(s) && c in s.conns
    ensures Goes(s, Remove(Terminate(s, c), c), hmac, None)
  {
    hide Remove, Hears, Announces, PresenceOf, Base, Unique, SameRole;
    var t := Terminate(s, c);
    var u := Remove(t, c);
    TerminateGoes(s, c, hmac);
    if c in t.live {
      var gone, note := t.(live := Without(t.live, c)), PresenceOf(t.conns[c], Disconnected);
      RemoveEffect(t, c);
      forall k | k in t.conns
        ensures SameRole(t.conns[k], u.conns[k]) && u.conns[k].keypad == t.conns[k].keypad
        ensures (t.conns[k].keypad ==> u.conns[k] == t.conns[k])
      {
        SilentRole(gone, k, note);
        if t.conns[k].keypad {
          RolesFlag(t, k);
          KeypadDeaf(gone, k, note);
        }
      }
      RemovedOk(t, u, c);
    } else {
      NotLive(t, c);
    }
    GoesQuietly(s, u, hmac, None);
  }

  lemma DisconnectNote(conn: Conn)
    ensures var note := PresenceOf(conn, Disconnected);
            note.Presence? && note.status.Disconnected? && note.id == conn.controllerId
  {}

  lemma RolesFlag(s: State, k: ConnId)
    requires Base(s) && k in s.conns && s.conns[k].keypad
    ensures !s.conns[k].receiver.True?
  {
    assert RolesOk(s.conns[k]);
  }

  lemma NotLive(s: State, c: ConnId)
    requires c !in s.live
    ensures Remove(s, c) == s
  {}

  lemma RemovedOk(s: State, t: State, c: ConnId)
    requires Ok(s) && t.live == Without(s.live, c) && t.conns.Keys == s.conns.Keys && c in s.conns && !s.conns[c].open
    requires forall k :: k in s.conns ==> SameRole(s.conns[k], t.conns[k])
    ensures Ok(t)
  {}

  lemma OfferGoes(s: State, c: ConnId, offer: Offered, hmac: Hmac)
    requires Ok(s) && MayOffer(s, c)
    ensures Goes(s, SendOffer(s, c, Some(offer)), hmac, Arriving(Offer(c, offer)))
  {
    hide Encodable, Unique, Base, RolesOk;
    var t := SendOffer(s, c, Some(offer));
    MinorOk(s, t);
    MovesOne(s, t, c, Propose(offer), hmac, Arriving(Offer(c, offer)));
  }

  lemma FrameGoes(s: State, c: ConnId, binary: bool, data: Bytes, env: Environment, hmac: Hmac)
    requires Ok(s) && Talking(s, c, true)
    ensures Goes(s, Frame(s, c, binary, data, env, hmac), hmac, Arriving(KeypadFrame(c, binary, data, env)))
  {
    hide Ok, Moved, SameKinds, Frame;
    FrameMoves(s, c, binary, data, env, hmac);
  }

  /** Events other than openings and LED configurations. */
  lemma StepGoes(s: State, e: Event, hmac: Hmac)
    requires Ok(s) && !e.OpenBrowser? && !e.OpenKeypad? && !e.BrowserConfiguration?
    ensures Goes(s, Step(s, e, hmac), hmac, Arriving(e))
  {
    hide Register, Frame, Remove, Broadcast, SendOffer, Terminate, Ok, Goes;
    assert Goes(s, s, hmac, Arriving(e)) by { StaysGoes(s, s.store, hmac, Arriving(e)); }
    match e {
      case BrowserRegistration(c, r) => if Talking(s, c, false) { BrowserRegistrationGoes(s, c, r, hmac); }
      case BrowserKey(c, id, text) => BroadcastGoes(s, Key(id, text), hmac);
      case PlayerLogin(text) => BroadcastGoes(s, Login(text), hmac);
      case KeypadFrame(c, binary, data, env) => if Talking(s, c, true) { FrameGoes(s, c, binary, data, env, hmac); }
      case Offer(c, offer) => if MayOffer(s, c) { OfferGoes(s, c, offer, hmac); }
      case HealthCheck(c) => TerminateGoes(s, c, hmac);
      case Closed(c) => if c in s.conns { ClosedGoes(s, c, hmac); }
      case Reloaded(store) => StaysGoes(s, store, hmac, None);
      case _ => assert false;
    }
  }

  lemma StaysGoes(s: State, store: Credentials.Devices, hmac: Hmac, a: Option<Arrival>)
    requires Ok(s)
    ensures Goes(s, s.(store := store), hmac, a) && Goes(s, s, hmac, a)
  {
    hide Base, Unique;
    MinorOk(s, s.(store := store));
    GoesQuietly(s, s.(store := store), hmac, a);
    GoesQuietly(s, s, hmac, a);
  }

  lemma GoesInv(s: State, t: State, hmac: Hmac, a: Option<Arrival>)
    requires Inv(s, hmac) && Goes(s, t, hmac, a)
    ensures Inv(t, hmac)
  {
    hide Ok, RecordOk, Moved;
    MovedInv(s, t, hmac, a);
  }

  /** Every event keeps the invariant. */
  lemma InvStep(s: State, e: Event, hmac: Hmac)
    requires Inv(s, hmac)
    ensures Inv(Step(s, e, hmac), hmac)
  {
    hide RecordOk, Configure, Register, Frame, Remove, Broadcast, SendOffer, Terminate, Add, With, Goes, Ok;
    if e.OpenBrowser? {
      if e.c !in s.conns { OpenBrowserInv(s, e.c, hmac); }
    } else if e.OpenKeypad? {
      if e.c !in s.conns { OpenKeypadInv(s, e.c, e.nonce, hmac); }
    } else if e.BrowserConfiguration? {
      ConfigureInv(s, Named(s, Controllers(s), e.id), e.leds, e.nonces, hmac);
    } else {
      StepGoes(s, e, hmac);
      GoesInv(s, Step(s, e, hmac), hmac, Arriving(e));
    }
  }

  lemma {:induction false} InvRun(s: State, events: seq<Event>, hmac: Hmac)
    requires Inv(s, hmac)
    ensures Inv(Run(s, events, hmac), hmac)
    decreases |events|
  {
    hide Inv, Step;
    if events != [] {
      InvStep(s, events[0], hmac);
      InvRun(Step(s, events[0], hmac), events[1..], hmac);
    }
  }

  /** On every run, the confirmed colours of a keypad are exactly those of its last command, if acknowledged. */
  lemma LedsOnEveryRun(events: seq<Event>, hmac: Hmac, k: ConnId, leds: Leds)
    requires k in Run(START, events, hmac).conns && Run(START, events, hmac).conns[k].keypad
    ensures var conn := Run(START, events, hmac).conns[k];
            conn.applied == Some(leds) <==> exists i, j, p :: Confirmed(conn.trace, i, j, p) && p.leds == leds
  {
    hide Run, IdentityOk, ProofOk, Confirmed;
    InvRun(START, events, hmac);
    assert LedsOk(Run(START, events, hmac).conns[k]);
  }

  /** At most one keypad in the registry is registered under an id. */
  lemma OneKeypadPerId(events: seq<Event>, hmac: Hmac, j: ConnId, k: ConnId)
    requires Registered(Run(START, events, hmac), j) && Registered(Run(START, events, hmac), k)
    requires Run(START, events, hmac).conns[j].deviceId == Run(START, events, hmac).conns[k].deviceId
    ensures j == k
  {
    hide Run, RecordOk;
    InvRun(START, events, hmac);
  }
}
