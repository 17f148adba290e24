/** What every frame of a keypad, every message of a browser and every offer is answered with. */
module SessionAnswers {
  import opened Prelude
  import Credentials
  import opened DeviceAuth
  import opened Protocol
  import opened ServerFrames
  import opened Sessions
  import opened SessionRegistry
  import opened SessionMoves
  import opened SessionRuns
  import SessionOrigins
  import opened InstallationEvidence

  /** The frame delivers this message in this version. */
  predicate Brings(e: Event, c: ConnId, version: nat, message: Message) {
    && e.KeypadFrame? && e.c == c && e.binary && 0 < |e.data| <= 512 && Delivered(e.data) == Some((version, message))
  }

  /** An open keypad connection that has authenticated in this version. */
  predicate Speaks(s: State, c: ConnId, version: nat) {
    && c in s.conns && s.conns[c].keypad && s.conns[c].open && s.conns[c].authenticated && s.conns[c].version == version
  }

  /** Nothing changes but connection `c`. */
  predicate Only(s: State, t: State, c: ConnId) {
    t.conns.Keys == s.conns.Keys && forall k :: k in s.conns && k != c ==> t.conns[k] == s.conns[k]
  }

  /** Of the other connections exactly the receivers in the registry are told this and nothing else changes. */
  predicate Tells(s: State, t: State, c: ConnId, note: Note) {
    && t.conns.Keys == s.conns.Keys && t.live == s.live
    && forall k :: k in s.conns && k != c ==>
         t.conns[k] == if k in s.live && s.conns[k].receiver.True?
                       then s.conns[k].(trace := s.conns[k].trace + [Told(note)]) else s.conns[k]
  }

  // ---- Authentication ----

  /** The proof over this connection's own challenge that these credentials ask for. */
  predicate RightProof(conn: Conn, devices: Credentials.Devices, id: Bytes, mac: Bytes, hmac: Hmac) {
    && conn.challenge.Some? && id in devices
    && mac == Proof(hmac, devices[id].secret, id, conn.challenge.value)
  }

  /** A right proof authenticates, in any version, and is acknowledged; the keypad joins the registry. */
  lemma ProofAccepted(s: State, e: Event, c: ConnId, version: nat, id: Bytes, mac: Bytes, hmac: Hmac)
    requires Ok(s) && Talking(s, c, true) && !s.conns[c].authenticated && Brings(e, c, version, AuthResponse(id, mac))
    requires e.env.loaded.Some? && RightProof(s.conns[c], e.env.loaded.value, id, mac, hmac)
    ensures var t := Step(s, e, hmac);
            && Only(s, t, c) && t.store == e.env.loaded.value && t.live == s.live + [c]
            && Speaks(t, c, version) && t.conns[c].deviceId == id && t.conns[c].challenge.None?
            && t.conns[c].receiver.Unset? && t.conns[c].controllerId.Null?
            && t.conns[c].trace == s.conns[c].trace + [
                 Received(version, AuthResponse(id, mac), e.env.at, true), Sent(AuthResult(version, 0, id))]
  {
    hide Proof, Delivered;
    DeliveredId(e.data);
    assert RolesOk(s.conns[c]) && c !in s.live;
    assert Step(s, e, hmac) == Authenticate(s, c, version, id, mac, e.env, hmac);
  }

  /** Any other proof is refused with a result frame and closes; without credentials the connection is only closed. */
  lemma ProofRefused(s: State, e: Event, c: ConnId, version: nat, id: Bytes, mac: Bytes, hmac: Hmac)
    requires Ok(s) && Talking(s, c, true) && !s.conns[c].authenticated && Brings(e, c, version, AuthResponse(id, mac))
    requires s.conns[c].challenge.Some?
    requires e.env.loaded.Some? ==> !RightProof(s.conns[c], e.env.loaded.value, id, mac, hmac)
    ensures var t := Step(s, e, hmac);
            && Only(s, t, c) && t.live == s.live && !t.conns[c].authenticated && !t.conns[c].open
            && t.conns[c].trace == s.conns[c].trace
                 + if e.env.loaded.Some? then [Sent(AuthResult(version, 1, []))] else []
  {
    hide Proof, Delivered;
    assert Step(s, e, hmac) == Authenticate(s, c, version, id, mac, e.env, hmac);
  }

  // ---- Frames that are not heeded ----

  /** The frame is one the connection may send now. */
  predicate Expected(conn: Conn, e: Event)
    requires e.KeypadFrame?
  {
    && e.binary && 0 < |e.data| <= 512 && Delivered(e.data).Some?
    && var (version, message) := Delivered(e.data).value;
       if conn.authenticated then version == conn.version && !message.AuthResponse? else message.AuthResponse?
  }

  /** Every other frame closes the connection and does nothing else. */
  lemma UnexpectedCloses(s: State, e: Event, hmac: Hmac)
    requires e.KeypadFrame? && Talking(s, e.c, true) && !Expected(s.conns[e.c], e)
    ensures Step(s, e, hmac) == s.(conns := s.conns[e.c := s.conns[e.c].(open := false)])
  {
    hide Delivered, Authenticate, RegisterKeypad, AcknowledgeLeds, Report, Broadcast;
  }

  // ---- Registrations ----

  /** The firmware is one the credentials let the device keep. */
  predicate Keeps(device: Credentials.Device, firmware: Bytes, available: bool) {
    || device.targetVersion.None? || device.targetVersion == Some([])
    || (device.targetVersion == Some(firmware) && available)
  }

  /** The frames that answer a registration. */
  function Answers(conn: Conn, firmware: Bytes, accepted: bool, env: Environment): seq<Entry> {
    (if accepted then [Sent(FirmwareAccepted(conn.version, firmware))] else [])
    + (if conn.version == 3 then [Sent(ConfigurationQuery(env.nonce))] else [])
    + (if conn.open && env.offer.Some? && Encodable(OfferFrame(conn.version, env.offer.value))
       then [Sent(OfferFrame(conn.version, env.offer.value))] else [])
  }

  lemma EnrolTrace(conn: Conn, m: Move, env: Environment)
    requires m.Enrol? && m.version == conn.version && m.nonce == env.nonce && m.offer == env.offer
    ensures Apply(conn, m).trace ==
            conn.trace + [Received(m.version, Registration(m.firmware, m.hardware), m.at, true)]
            + Answers(conn, m.firmware, m.accepted, env)
  {
    hide Encodable;
    var a := Enrolled(conn, m.version, m.firmware, m.hardware, m.at);
    var b := Accepting(a, m.firmware, m.accepted);
    var c := Asking(b, m.nonce);
    assert Apply(conn, m) == Proposing(c, m.offer);
    assert c.open == conn.open && c.version == conn.version;
    assert c.trace == a.trace + (if m.accepted then [Sent(FirmwareAccepted(conn.version, m.firmware))] else [])
                      + (if conn.version == 3 then [Sent(ConfigurationQuery(env.nonce))] else []);
  }

  lemma EnrolAnswers(conn: Conn, m: Move, env: Environment)
    requires m.Enrol? && m.nonce == env.nonce
    ensures var r := Apply(conn, m);
            && r.firmware == Some(m.firmware) && r.hardware == Some(m.hardware) && r.open == conn.open
            && r.receiver.False? && r.controllerId == Str(conn.deviceId) && r.keypad == conn.keypad
            && r.authenticated == conn.authenticated && r.version == conn.version && r.deviceId == conn.deviceId
            && r.applied.None? && r.verified.None? && r.pending.None?
            && r.query == if conn.version == 3 then Some(env.nonce) else conn.query
  {
    hide Encodable;
    var a := Enrolled(conn, m.version, m.firmware, m.hardware, m.at);
    var b := Accepting(a, m.firmware, m.accepted);
    var c := Asking(b, m.nonce);
    assert Apply(conn, m) == Proposing(c, m.offer);
  }

  /** Every receiver is told of the keypad with its firmware and hardware, and it is answered in full. */
  lemma RegistrationAnswered(s: State, e: Event, c: ConnId, firmware: Bytes, hardware: Bytes, hmac: Hmac)
    requires Ok(s) && Talking(s, c, true) && s.conns[c].authenticated && s.conns[c].deviceId in s.store
    requires Brings(e, c, s.conns[c].version, Registration(firmware, hardware))
    ensures var t, conn := Step(s, e, hmac), s.conns[c];
            var note := Presence(Str(conn.deviceId), Connected,
                Meta(true, OrNull(Some(firmware)), OrNull(Some(hardware)), None, None));
            && t.store == s.store && t.conns.Keys == s.conns.Keys && c in t.live
            && Speaks(t, c, conn.version) && t.conns[c].deviceId == conn.deviceId
            && t.conns[c].controllerId == Str(conn.deviceId) && t.conns[c].receiver.False?
            && t.conns[c].firmware == Some(firmware) && t.conns[c].hardware == Some(hardware)
            && t.conns[c].applied.None? && t.conns[c].verified.None? && t.conns[c].pending.None?
            && (conn.version == 3 ==> t.conns[c].query == Some(e.env.nonce))
            && t.conns[c].trace ==
                 conn.trace + [Received(conn.version, Registration(firmware, hardware), e.env.at, true)]
                 + Answers(conn, firmware, Keeps(s.store[conn.deviceId], firmware, e.env.available), e.env)
            && (forall k :: k in s.live && HasFlag(s, k, True) ==>
                  k in t.live && t.conns[k] == s.conns[k].(trace := s.conns[k].trace + [Told(note)]))
  {
    hide RegisterKeypad, Apply, Evicted, PresenceOf, Enrolled, Delivered, Encodable, Answers;
    var conn := s.conns[c];
    var m := RegistrationMove(s, conn, conn.version, firmware, hardware, e.env);
    assert Step(s, e, hmac) == RegisterKeypad(s, c, conn.version, firmware, hardware, e.env);
    RegisterKeypadEffect(s, c, conn.version, firmware, hardware, e.env);
    EnrolledNote(conn, conn.version, firmware, hardware, e.env.at);
    EnrolAnswers(conn, m, e.env);
    EnrolTrace(conn, m, e.env);
    NeverEvictsItself(s, c, Dispatched(conn, firmware, hardware));
    LiveKeypad(s, c);
    forall k | k in s.live && HasFlag(s, k, True) ensures !Evicted(s, c, Dispatched(conn, firmware, hardware), k) {
      ReceiverStays(s, c, firmware, hardware, k);
    }
  }

  lemma ReceiverStays(s: State, c: ConnId, firmware: Bytes, hardware: Bytes, k: ConnId)
    requires c in s.conns && HasFlag(s, k, True)
    ensures !Evicted(s, c, Dispatched(s.conns[c], firmware, hardware), k)
  {}

  /** A keypad that is gone from the credentials only loses what it had shown; nobody is told and nothing is sent. */
  lemma RegistrationDropped(s: State, e: Event, c: ConnId, firmware: Bytes, hardware: Bytes, hmac: Hmac)
    requires Talking(s, c, true) && s.conns[c].authenticated && s.conns[c].deviceId !in s.store
    requires Brings(e, c, s.conns[c].version, Registration(firmware, hardware))
    ensures var t, conn := Step(s, e, hmac), s.conns[c];
            && Only(s, t, c) && t.live == s.live
            && t.conns[c] == conn.(pending := None, applied := None, verified := None, trace :=
                 conn.trace + [Received(conn.version, Registration(firmware, hardware), e.env.at, false)])
  {
    hide Delivered;
    assert Step(s, e, hmac) == RegisterKeypad(s, c, s.conns[c].version, firmware, hardware, e.env);
  }

  // ---- Acknowledgements, reports and keys ----

  lemma TellsOthers(s: State, c: ConnId, conn: Conn, note: Note)
    requires c in s.conns && conn.receiver == s.conns[c].receiver && !conn.receiver.True?
    ensures var t := Broadcast(Put(s, c, conn), note); Tells(s, t, c, note) && t.conns[c] == conn && t.store == s.store
  {
    hide Broadcast;
    BroadcastEffect(Put(s, c, conn), note);
  }

  lemma Flagless(s: State, c: ConnId)
    requires Ok(s) && c in s.conns && s.conns[c].keypad
    ensures !s.conns[c].receiver.True?
    ensures s.conns[c].controllerId.Str? ==>
              s.conns[c].controllerId == Str(s.conns[c].deviceId) && s.conns[c].deviceId != []
  {
    assert RolesOk(s.conns[c]);
  }

  /** A registered keypad whose last command has this nonce confirms it, and every receiver is told the colours. */
  lemma CommandConfirmed(s: State, e: Event, c: ConnId, nonce: Bytes, leds: Leds, hmac: Hmac)
    requires Ok(s) && Speaks(s, c, 3) && s.conns[c].controllerId.Str?
    requires s.conns[c].pending == Some(Pending(nonce, leds))
    requires Brings(e, c, 3, LedApplied(nonce))
    ensures var t, conn := Step(s, e, hmac), s.conns[c];
            && Tells(s, t, c, LedState(Str(conn.deviceId), Some(leds))) && t.store == s.store
            && t.conns[c] == conn.(applied := Some(leds), pending := None,
                 trace := conn.trace + [Received(3, LedApplied(nonce), e.env.at, true)])
  {
    hide Broadcast, Delivered;
    Flagless(s, c);
    AcknowledgeEffect(s, c, 3, nonce, e.env);
    assert Step(s, e, hmac) == AcknowledgeLeds(s, c, 3, nonce, e.env);
    TellsOthers(s, c, Apply(s.conns[c], Acknowledge(3, nonce, e.env.at)),
        LedState(Str(s.conns[c].deviceId), Some(leds)));
  }

  /** An acknowledgement with any other nonce is only recorded. */
  lemma CommandNotConfirmed(s: State, e: Event, c: ConnId, nonce: Bytes, hmac: Hmac)
    requires Ok(s) && Speaks(s, c, 3) && Brings(e, c, 3, LedApplied(nonce))
    requires s.conns[c].controllerId.Str? ==> s.conns[c].pending.None? || s.conns[c].pending.value.nonce != nonce
    ensures var t, conn := Step(s, e, hmac), s.conns[c];
            && Only(s, t, c) && t.live == s.live
            && t.conns[c] == conn.(trace := conn.trace + [Received(3, LedApplied(nonce), e.env.at, false)])
  {
    hide Broadcast, Delivered;
    assert Step(s, e, hmac) == AcknowledgeLeds(s, c, 3, nonce, e.env);
  }

  /** A report with any other nonce closes the connection. */
  lemma ReportRefused(s: State, e: Event, c: ConnId, nonce: Bytes, digest: Bytes, hmac: Hmac)
    requires Ok(s) && Speaks(s, c, 3) && Brings(e, c, 3, ConfigurationReport(nonce, digest))
    requires s.conns[c].controllerId.Str? ==> s.conns[c].query != Some(nonce)
    ensures var t, conn := Step(s, e, hmac), s.conns[c];
            && Only(s, t, c) && t.live == s.live
            && t.conns[c] == conn.(open := false, trace :=
                 conn.trace + [Received(3, ConfigurationReport(nonce, digest), e.env.at, false)])
  {
    hide Broadcast, Delivered, Credentials.ToHex;
    ReportEffect(s, c, 3, nonce, digest, e.env);
    assert Step(s, e, hmac) == Report(s, c, 3, nonce, digest, e.env);
  }

  /**
   * A registered keypad that reports with the nonce it was asked with has its digest recorded with the time, and every
   * receiver is told both.
   */
  lemma ReportRecorded(s: State, e: Event, c: ConnId, nonce: Bytes, digest: Bytes, hmac: Hmac)
    requires Ok(s) && Speaks(s, c, 3) && s.conns[c].controllerId.Str? && s.conns[c].query == Some(nonce)
    requires Brings(e, c, 3, ConfigurationReport(nonce, digest))
    ensures var t, conn := Step(s, e, hmac), s.conns[c];
            var verified := Verified(Credentials.ToHex(digest), e.env.at);
            && Tells(s, t, c, ConfigurationState(Str(conn.deviceId), verified)) && t.store == s.store
            && t.conns[c] == conn.(query := None, verified := Some(verified),
                 trace := conn.trace + [Received(3, ConfigurationReport(nonce, digest), e.env.at, true)])
  {
    hide Broadcast, Delivered, Credentials.ToHex;
    Flagless(s, c);
    var verified := Verified(Credentials.ToHex(digest), e.env.at);
    ReportEffect(s, c, 3, nonce, digest, e.env);
    assert Step(s, e, hmac) == Report(s, c, 3, nonce, digest, e.env);
    TellsOthers(s, c, Apply(s.conns[c], Prove(3, nonce, digest, e.env.at)),
        ConfigurationState(Str(s.conns[c].deviceId), verified));
  }

  /** A key event of an authenticated keypad reaches every receiver under its id, with the key and state it was sent. */
  lemma KeyForwarded(s: State, e: Event, c: ConnId, version: nat, key: string, state: string, hmac: Hmac)
    requires Ok(s) && Speaks(s, c, version) && Brings(e, c, version, KeyEvent(key, state))
    ensures var t, conn := Step(s, e, hmac), s.conns[c];
            && Tells(s, t, c, Pressed(Str(conn.deviceId), key, state)) && t.store == s.store
            && t.conns[c] == conn.(trace := conn.trace + [Received(version, KeyEvent(key, state), e.env.at, true)])
  {
    hide Broadcast, Delivered;
    Flagless(s, c);
    TellsOthers(s, c, With(s.conns[c], Received(version, KeyEvent(key, state), e.env.at, true)),
        Pressed(Str(s.conns[c].deviceId), key, state));
  }

  // ---- Offers ----

  /** New firmware is offered to every open, authenticated keypad that has reported its firmware and hardware. */
  lemma OfferSent(s: State, c: ConnId, offer: Offered, version: nat, hmac: Hmac)
    requires Speaks(s, c, version) && Encodable(OfferFrame(version, offer))
    requires s.conns[c].firmware.Some? && s.conns[c].firmware.value != []
    requires s.conns[c].hardware.Some? && s.conns[c].hardware.value != []
    ensures var conn, frame := s.conns[c],
            UpdateAvailable(version, offer.firmware, offer.size, offer.digest, offer.url, offer.token);
            Step(s, Offer(c, offer), hmac) == s.(conns := s.conns[c := conn.(trace := conn.trace + [Sent(frame)])])
  {
    hide Encodable;
  }

  /** To any other connection it is not. */
  lemma OfferWithheld(s: State, c: ConnId, offer: Offered, hmac: Hmac)
    requires c in s.conns
    requires var conn := s.conns[c];
             || !conn.keypad || !conn.open || !conn.authenticated
             || conn.firmware.None? || conn.firmware == Some([]) || conn.hardware.None? || conn.hardware == Some([])
             || !Encodable(OfferFrame(conn.version, offer))
    ensures Step(s, Offer(c, offer), hmac) == s
  {
    hide Encodable;
  }

  // ---- Ends ----

  /** A connection in the registry that fails its health check is closed, and nothing else happens. */
  lemma UnhealthyCloses(s: State, c: ConnId, hmac: Hmac)
    requires c in s.live && c in s.conns
    ensures Step(s, HealthCheck(c), hmac) == s.(conns := s.conns[c := s.conns[c].(open := false)])
  {}

  /**
   * A connection that ends is closed and leaves the registry; if it was the last controller of its id, every receiver
   * that is left is told of that, and otherwise nobody of anything.
   */
  lemma EndAnnounced(s: State, c: ConnId, hmac: Hmac)
    requires Ok(s) && c in s.live
    ensures var t, conn := Step(s, Closed(c), hmac), s.conns[c];
            && !t.conns[c].open && (forall k :: k in t.live <==> k in s.live && k != c)
            && t.conns.Keys == s.conns.Keys && t.store == s.store
            && forall k :: k in s.conns && k != c ==>
                 t.conns[k] ==
                 if Last(s, c) && k in s.live && s.conns[k].receiver.True?
                 then s.conns[k].(trace := s.conns[k].trace +
                     [Told(Presence(conn.controllerId, Disconnected, MetaOf(conn)))])
                 else s.conns[k]
  {
    hide Remove, Announces, Unique;
    var u := Terminate(s, c);
    assert Base(u) && u.live == s.live;
    RemoveEffect(u, c);
    assert Announces(u, c) == Last(s, c) by { AnnouncesLast(s, u, c); }
  }

  /** The connection is the last controller of a text id. */
  predicate Last(s: State, c: ConnId)
    requires c in s.conns
  {
    && s.conns[c].receiver.False? && s.conns[c].controllerId.Str?
    && forall k :: k in s.live && k != c && HasFlag(s, k, False) ==> s.conns[k].controllerId != s.conns[c].controllerId
  }

  lemma AnnouncesLast(s: State, u: State, c: ConnId)
    requires c in s.conns && u == Terminate(s, c)
    ensures Announces(u, c) == Last(s, c)
  {
    var gone := u.(live := Without(u.live, c));
    if k :| k in s.live && k != c && HasFlag(s, k, False) && s.conns[k].controllerId == s.conns[c].controllerId {
      assert k in gone.live && HasFlag(gone, k, False) && gone.conns[k].controllerId == u.conns[c].controllerId;
    }
    if k :| k in gone.live && HasFlag(gone, k, False) && gone.conns[k].controllerId == u.conns[c].controllerId {
      assert k in s.live && k != c && HasFlag(s, k, False);
    }
  }

  // ---- Browsers ----

  /** A key event of an open browser, and a player's login, reach every receiver as they are. */
  lemma TextForwarded(s: State, c: ConnId, id: Value, text: Bytes, hmac: Hmac)
    requires Talking(s, c, false)
    ensures var t := Step(s, BrowserKey(c, id, text), hmac);
            t.live == s.live && t.conns.Keys == s.conns.Keys
                && forall k :: k in s.conns ==> t.conns[k] == Hearing(s, k, Key(id, text))
    ensures var t := Step(s, PlayerLogin(text), hmac);
            t.live == s.live && t.conns.Keys == s.conns.Keys
                && forall k :: k in s.conns ==> t.conns[k] == Hearing(s, k, Login(text))
  {
    hide Broadcast;
    BroadcastEffect(s, Key(id, text));
    BroadcastEffect(s, Login(text));
  }

  /** A connection that is told something if it is a receiver in the registry. */
  function Hearing(s: State, k: ConnId, note: Note): Conn
    requires k in s.conns
  {
    if k in s.live && s.conns[k].receiver.True? then s.conns[k].(trace := s.conns[k].trace + [Told(note)])
    else s.conns[k]
  }

  /** Records only grow. */
  ghost predicate Longer(s: State, t: State) {
    t.conns.Keys == s.conns.Keys && forall k :: k in s.conns ==> s.conns[k].trace <= t.conns[k].trace
  }

  lemma LongerThrough(s: State, t: State, u: State)
    requires Longer(s, t) && Longer(t, u)
    ensures Longer(s, u)
  {}

  lemma CommandLonger(s: State, k: ConnId, leds: Leds, nonce: Bytes)
    requires Base(s) && k in s.conns && s.conns[k].keypad
    ensures Longer(s, Command(s, k, leds, nonce))
    ensures Command(s, k, leds, nonce).conns[k].trace == s.conns[k].trace + [Sent(LedCommand(nonce, leds))]
  {
    hide Command;
    CommandEffect(s, k, leds, nonce);
  }

  /** The frame or message with these colours that a controller of this kind and version gets. */
  predicate IsOrder(conn: Conn, entry: Entry, leds: Leds, nonces: seq<Bytes>) {
    if conn.keypad && conn.version == 3 then exists nonce :: nonce in nonces && entry == Sent(LedCommand(nonce, leds))
    else if conn.keypad then entry == Sent(Configuration(conn.version, leds))
    else entry == Told(Forwarded(conn.controllerId, Some(leds)))
  }

  /** It has been sent since. */
  ghost predicate Ordered(before: Conn, after: Conn, leds: Leds, nonces: seq<Bytes>) {
    exists j :: |before.trace| <= j < |after.trace| && IsOrder(before, after.trace[j], leds, nonces)
  }

  lemma OrderedLonger(before: Conn, middle: Conn, after: Conn, leds: Leds, nonces: seq<Bytes>)
    requires before.trace <= middle.trace <= after.trace
    requires Ordered(before, middle, leds, nonces)
    ensures Ordered(before, after, leds, nonces)
  {
    hide IsOrder;
    var j :| |before.trace| <= j < |middle.trace| && IsOrder(before, middle.trace[j], leds, nonces);
    assert after.trace[j] == middle.trace[j];
  }

  lemma OrderedLater(before: Conn, middle: Conn, after: Conn, leds: Leds, nonces: seq<Bytes>, rest: seq<Bytes>)
    requires before.trace <= middle.trace && SameRole(before, middle) && before.version == middle.version
    requires (forall n :: n in rest ==> n in nonces) && Ordered(middle, after, leds, rest)
    ensures Ordered(before, after, leds, nonces)
  {
    var j :| |middle.trace| <= j < |after.trace| && IsOrder(middle, after.trace[j], leds, rest);
    assert IsOrder(before, after.trace[j], leds, nonces);
  }

  /** The state after the first addressee, and the nonces left. */
  function AfterFirst(s: State, k: ConnId, leds: Leds, nonces: seq<Bytes>): (State, seq<Bytes>)
    requires k in s.conns && nonces != []
  {
    var conn := s.conns[k];
    if conn.keypad && conn.version == CONFIGURATION_VERSION then (Command(s, k, leds, nonces[0]), nonces[1..])
    else if conn.keypad then (Log(s, k, Sent(Configuration(conn.version, leds))), nonces)
    else (Log(s, k, Told(Forwarded(conn.controllerId, Some(leds)))), nonces)
  }

  lemma ConfigureNext(s: State, targets: seq<ConnId>, leds: Leds, nonces: seq<Bytes>)
    requires targets != [] && targets[0] in s.conns && Sendable(Some(leds)) && nonces != []
    requires s.conns[targets[0]].keypad ==> 1 <= s.conns[targets[0]].version <= 3
    ensures var (t, rest) := AfterFirst(s, targets[0], leds, nonces);
            Configure(s, targets, Some(leds), nonces) == Configure(t, targets[1..], Some(leds), rest)
  {
    hide Command, Log;
  }

  lemma FirstCommand(s: State, k: ConnId, leds: Leds, nonces: seq<Bytes>, hmac: Hmac)
    requires Inv(s, hmac) && Commandable(s, k) && nonces != []
    ensures var t := Command(s, k, leds, nonces[0]);
            && Inv(t, hmac) && Minor(s, t) && Longer(s, t) && Ordered(s.conns[k], t.conns[k], leds, nonces)
            && forall j :: j in s.conns ==> t.conns[j].version == s.conns[j].version
  {
    assert Base(s);
    hide Inv, Minor, Command, Base;
    CommandInv(s, k, leds, nonces[0], hmac);
    CommandLonger(s, k, leds, nonces[0]);
    VersionsStay(s, k, leds, nonces[0]);
    assert IsOrder(s.conns[k], Command(s, k, leds, nonces[0]).conns[k].trace[|s.conns[k].trace|], leds, nonces);
  }

  lemma FirstLogged(s: State, k: ConnId, e: Entry, leds: Leds, nonces: seq<Bytes>)
    requires k in s.conns && IsOrder(s.conns[k], e, leds, nonces)
    ensures var t := Log(s, k, e);
            && Minor(s, t) && Longer(s, t) && Ordered(s.conns[k], t.conns[k], leds, nonces)
            && forall j :: j in s.conns ==> t.conns[j].version == s.conns[j].version
  {
    hide Minor, IsOrder, Log;
    LogMinor(s, k, e);
    LogLonger(s, k, e);
    assert IsOrder(s.conns[k], Log(s, k, e).conns[k].trace[|s.conns[k].trace|], leds, nonces);
  }

  /** What the first addressee gets. */
  lemma FirstOrdered(s: State, k: ConnId, leds: Leds, nonces: seq<Bytes>, hmac: Hmac)
    requires Inv(s, hmac) && HasFlag(s, k, False) && nonces != []
    ensures var (t, rest) := AfterFirst(s, k, leds, nonces);
            && Inv(t, hmac) && Minor(s, t) && Longer(s, t) && Ordered(s.conns[k], t.conns[k], leds, nonces)
            && (rest == nonces || rest == nonces[1..])
            && forall j :: j in s.conns ==> t.conns[j].version == s.conns[j].version
  {
    var conn := s.conns[k];
    assert RolesOk(conn) && Base(s);
    hide Inv, Minor, Command, Log, Base, Longer, Ordered;
    if conn.keypad && conn.version == CONFIGURATION_VERSION {
      FirstCommand(s, k, leds, nonces, hmac);
    } else if conn.keypad {
      LogOldMoves(s, k, leds, hmac);
      FirstLogged(s, k, Sent(Configuration(conn.version, leds)), leds, nonces);
    } else {
      LogBrowser(s, k, Told(Forwarded(conn.controllerId, Some(leds))), hmac);
      FirstLogged(s, k, Told(Forwarded(conn.controllerId, Some(leds))), leds, nonces);
    }
  }

  lemma LogLonger(s: State, k: ConnId, e: Entry)
    requires k in s.conns
    ensures Longer(s, Log(s, k, e)) && Log(s, k, e).conns[k].trace == s.conns[k].trace + [e]
    ensures forall j :: j in s.conns ==> Log(s, k, e).conns[j].version == s.conns[j].version
  {}

  lemma VersionsStay(s: State, k: ConnId, leds: Leds, nonce: Bytes)
    requires Base(s) && k in s.conns && s.conns[k].keypad
    ensures forall j :: j in s.conns ==>
              j in Command(s, k, leds, nonce).conns && Command(s, k, leds, nonce).conns[j].version == s.conns[j].version
  {
    hide Command;
    CommandEffect(s, k, leds, nonce);
  }

  lemma MinorFlags(s: State, t: State, k: ConnId)
    requires Minor(s, t) && k in s.conns
    ensures k in t.conns && SameRole(s.conns[k], t.conns[k])
  {}

  /**
   * A configuration reaches every controller it is addressed to: a keypad of version 3 gets the colours in a command
   * with one of the fresh nonces, an older one in the frame of its version, and a browser in a message.
   */
  lemma {:induction false} ConfigurationReaches(
      s: State, targets: seq<ConnId>, leds: Leds, nonces: seq<Bytes>, hmac: Hmac)
    requires Inv(s, hmac) && Targets(s, targets) && Sendable(Some(leds)) && |nonces| >= |targets|
    requires forall k :: k in targets && s.conns[k].keypad ==> 1 <= s.conns[k].version <= 3
    ensures var t := Configure(s, targets, Some(leds), nonces);
            Longer(s, t) && forall k :: k in targets ==> Ordered(s.conns[k], t.conns[k], leds, nonces)
    decreases |targets|
  {
    hide Inv, Minor, Sendable, Ordered, Configure, AfterFirst;
    if targets == [] {
      NothingConfigured(s, leds, nonces);
    } else {
      var k := targets[0];
      assert k in targets && k in s.conns;
      var (t, rest) := AfterFirst(s, k, leds, nonces);
      FirstOrdered(s, k, leds, nonces, hmac);
      ConfigureNext(s, targets, leds, nonces);
      TargetsStay(s, t, targets);
      forall j | j in targets[1..] ensures t.conns[j].keypad ==> 1 <= t.conns[j].version <= 3 {
        MinorFlags(s, t, j);
      }
      ConfigurationReaches(t, targets[1..], leds, rest, hmac);
      var u := Configure(t, targets[1..], Some(leds), rest);
      LongerThrough(s, t, u);
      OrderedLonger(s.conns[k], t.conns[k], u.conns[k], leds, nonces);
      forall j | j in targets ensures Ordered(s.conns[j], u.conns[j], leds, nonces) {
        if j != k {
          assert j in targets[1..];
          MinorFlags(s, t, j);
          OrderedLater(s.conns[j], t.conns[j], u.conns[j], leds, nonces, rest);
        }
      }
    }
  }

  lemma NothingConfigured(s: State, leds: Leds, nonces: seq<Bytes>)
    ensures Configure(s, [], Some(leds), nonces) == s
  {}

  /** Nobody else is affected, unless it is a receiver. */
  lemma {:induction false} OthersUntouched(
      s: State, targets: seq<ConnId>, leds: Option<Leds>, nonces: seq<Bytes>, hmac: Hmac, k: ConnId)
    requires Inv(s, hmac) && Targets(s, targets)
    requires k in s.conns && k !in targets && !s.conns[k].receiver.True?
    ensures var t := Configure(s, targets, leds, nonces); k in t.conns && t.conns[k] == s.conns[k]
    decreases |targets|
  {
    if targets != [] && targets[0] in s.conns {
      var first, conn := targets[0], s.conns[targets[0]];
      assert RolesOk(conn) && HasFlag(s, first, False) && Base(s) && first != k;
      hide Inv, Minor, Targets, Command, Channels, KnownVersion, Log, Base, RolesOk;
      var t, rest := s, nonces;
      if conn.keypad && conn.version == CONFIGURATION_VERSION {
        if Sendable(leds) && nonces != [] {
          t, rest := Command(s, first, leds.value, nonces[0]), nonces[1..];
          CommandInv(s, first, leds.value, nonces[0], hmac);
          CommandElsewhere(s, first, leds.value, nonces[0], k);
        }
      } else if conn.keypad {
        if Sendable(leds) && KnownVersion(conn.version) {
          t := Log(s, first, Sent(Configuration(conn.version, leds.value)));
          LogOldMoves(s, first, leds.value, hmac);
          LogMinor(s, first, Sent(Configuration(conn.version, leds.value)));
          LogElsewhere(s, first, Sent(Configuration(conn.version, leds.value)), k);
        }
      } else {
        t := Log(s, first, Told(Forwarded(conn.controllerId, leds)));
        LogBrowser(s, first, Told(Forwarded(conn.controllerId, leds)), hmac);
        LogMinor(s, first, Told(Forwarded(conn.controllerId, leds)));
        LogElsewhere(s, first, Told(Forwarded(conn.controllerId, leds)), k);
      }
      if Configure(s, targets, leds, nonces) != s {
        TargetsStay(s, t, targets);
        OthersUntouched(t, targets[1..], leds, rest, hmac, k);
      }
    }
  }

  lemma CommandElsewhere(s: State, first: ConnId, leds: Leds, nonce: Bytes, k: ConnId)
    requires Base(s) && first in s.conns && s.conns[first].keypad
    requires k in s.conns && k != first && !s.conns[k].receiver.True?
    ensures k in Command(s, first, leds, nonce).conns && Command(s, first, leds, nonce).conns[k] == s.conns[k]
  {
    hide Command;
    CommandEffect(s, first, leds, nonce);
  }

  lemma LogElsewhere(s: State, first: ConnId, e: Entry, k: ConnId)
    requires k in s.conns && k != first
    ensures k in Log(s, first, e).conns && Log(s, first, e).conns[k] == s.conns[k]
  {}

  /** An authenticated keypad speaks one of the three versions. */
  lemma VersionsKnown(events: seq<Event>, hmac: Hmac, k: ConnId)
    requires k in Run(START, events, hmac).conns && Run(START, events, hmac).conns[k].authenticated
    ensures 1 <= Run(START, events, hmac).conns[k].version <= 3
  {
    hide Run, SessionOrigins.Genuine, Proof, Delivered;
    var conn := Run(START, events, hmac).conns[k];
    SessionOrigins.IdentityOnEveryRun(events, hmac, k);
    var i :| 0 <= i < |events| && SessionOrigins.Admits(Arriving(events[i]), k, conn);
    DeliveredVersion(events[i].data);
  }

  lemma DeliveredVersion(data: Bytes)
    requires Delivered(data).Some?
    ensures 1 <= Delivered(data).value.0 <= 3
  {
    hide Decode, EncodeFrame, LegalItems;
    DecodeIsLegal(data);
  }

  /**
   * On every run, colours that a browser sends to an id reach every controller registered under it, and nobody that is
   * neither registered under it nor a receiver.
   */
  lemma ColoursReach(
      events: seq<Event>, hmac: Hmac, c: ConnId, id: Value, leds: Leds, nonces: seq<Bytes>, k: ConnId)
    requires Talking(Run(START, events, hmac), c, false) && Channels(leds)
    requires |nonces| >= |Run(START, events, hmac).live| && k in Run(START, events, hmac).live
    ensures var s := Run(START, events, hmac);
            var t := Step(s, BrowserConfiguration(c, id, Some(leds), nonces), hmac);
            && k in s.conns && k in t.conns
            && if s.conns[k].receiver.False? && s.conns[k].controllerId == id
               then Ordered(s.conns[k], t.conns[k], leds, nonces)
               else !s.conns[k].receiver.True? ==> t.conns[k] == s.conns[k]
  {
    hide Run, Configure, Named, Controllers, Ordered, Channels;
    var s := Run(START, events, hmac);
    InvRun(START, events, hmac);
    var targets := Named(s, Controllers(s), id);
    AddressedExactly(s, id);
    assert Base(s) && Targets(s, targets);
    hide Inv, Base;
    if s.conns[k].receiver.False? && s.conns[k].controllerId == id {
      forall j | j in targets && s.conns[j].keypad ensures 1 <= s.conns[j].version <= 3 {
        FlaggedKeypad(s, j);
        VersionsKnown(events, hmac, j);
      }
      ConfigurationReaches(s, targets, leds, nonces, hmac);
    } else if !s.conns[k].receiver.True? {
      OthersUntouched(s, targets, Some(leds), nonces, hmac, k);
    } else {
      ConfigureInv(s, targets, Some(leds), nonces, hmac);
    }
  }

  lemma FlaggedKeypad(s: State, k: ConnId)
    requires Base(s) && HasFlag(s, k, False) && s.conns[k].keypad
    ensures s.conns[k].authenticated
  {
    assert RolesOk(s.conns[k]);
  }

  lemma AddressedExactly(s: State, id: Value)
    ensures var targets := Named(s, Controllers(s), id);
            |targets| <= |s.live|
            && forall k :: k in targets <==> k in s.live && HasFlag(s, k, False) && s.conns[k].controllerId == id
  {}
}
