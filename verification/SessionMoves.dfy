/**
 * The life of one keypad connection: what a handler may do to it, and what its record of frames then says about
 * its identity, its LED confirmation and its configuration proof.
 */
module SessionMoves {
  import opened Prelude
  import Credentials
  import opened DeviceAuth
  import opened Protocol
  import opened ServerFrames
  import opened Sessions

  /** What one handler does to one keypad connection. */
  datatype Move =
    | Close
    | Idle
    | Unavailable(version: nat)
    | Refuse(version: nat)
    | Enter(version: nat, id: Bytes, mac: Bytes, at: int, device: Credentials.Device)
    | Lapse(version: nat, firmware: Bytes, hardware: Bytes, at: int)
    | Enrol(version: nat, firmware: Bytes, hardware: Bytes, at: int, accepted: bool, nonce: Bytes,
        offer: Option<Offered>)
    | Acknowledge(version: nat, nonce: Bytes, at: int)
    | Prove(version: nat, nonce: Bytes, digest: Bytes, at: int)
    | Press(version: nat, message: Message, at: int)
    | Light(nonce: Bytes, leds: Leds)
    | LightOld(leds: Leds)
    | Propose(release: Offered)

  predicate Allowed(conn: Conn, m: Move, hmac: Hmac) {
    match m
    case Close => true
    case Idle => true
    case Unavailable(_) => !conn.authenticated && conn.open
    case Refuse(_) => !conn.authenticated && conn.open
    case Enter(version, id, mac, at, device) =>
      && !conn.authenticated && conn.open && conn.challenge.Some? && id != []
      && mac == Proof(hmac, device.secret, id, conn.challenge.value)
    case Press(version, message, _) => conn.authenticated && version == conn.version && message.KeyEvent?
    case Light(_, _) => conn.authenticated && conn.version == CONFIGURATION_VERSION && HasId(conn)
    case LightOld(_) => conn.authenticated && conn.version != CONFIGURATION_VERSION
    case Propose(_) => conn.authenticated && OrNull(conn.firmware).Some?
    case _ => conn.authenticated && m.version == conn.version
  }

  /**
   * What may change a keypad's record: a frame that reaches its connection, with the credentials that a reload would
   * then find, or an offer made when new firmware appears.
   */
  datatype Arrival =
    | Arrival(c: ConnId, version: nat, message: Message, at: int, loaded: Option<Credentials.Devices>)
    | Offering(c: ConnId, offer: Offered)

  function Arriving(e: Event): Option<Arrival> {
    match e
    case KeypadFrame(c, _, data, env) =>
      if Delivered(data).None? then None
      else
        var (version, message) := Delivered(data).value;
        Some(Arrival(c, version, message, env.at, env.loaded))
    case Offer(c, offer) => Some(Offering(c, offer))
    case _ => None
  }

  /** The message a move records as received: its version, its contents and its time. */
  function Heeded(m: Move): Option<(nat, Message, int)> {
    match m
    case Enter(version, id, mac, at, _) => Some((version, AuthResponse(id, mac), at))
    case Lapse(version, firmware, hardware, at) => Some((version, Registration(firmware, hardware), at))
    case Enrol(version, firmware, hardware, at, _, _, _) => Some((version, Registration(firmware, hardware), at))
    case Acknowledge(version, nonce, at) => Some((version, LedApplied(nonce), at))
    case Prove(version, nonce, digest, at) => Some((version, ConfigurationReport(nonce, digest), at))
    case Press(version, message, at) => Some((version, message, at))
    case _ => None
  }

  /** The message did arrive on this connection; a keypad enters as what the credentials loaded then say it is. */
  predicate Suits(a: Option<Arrival>, k: ConnId, m: Move) {
    && (m.Propose? ==> a == Some(Offering(k, m.release)))
    && (Heeded(m).Some? ==>
      && a.Some? && a.value.Arrival? && a.value.c == k
      && Heeded(m) == Some((a.value.version, a.value.message, a.value.at))
      && (m.Enter? ==> a.value.loaded.Some? && m.id in a.value.loaded.value && a.value.loaded.value[m.id] == m.device))
  }

  /** A frame that brings such a move about. */
  function Bringing(k: ConnId, m: Move): (a: Option<Arrival>)
    ensures Suits(a, k, m)
  {
    if m.Propose? then Some(Offering(k, m.release))
    else if Heeded(m).None? then None
    else
      var (version, message, at) := Heeded(m).value;
      Some(Arrival(k, version, message, at, if m.Enter? then Some(map[m.id := m.device]) else None))
  }

  function Cleared(conn: Conn): Conn {
    conn.(pending := None, applied := None, verified := None)
  }

  function Enrolled(conn: Conn, version: nat, firmware: Bytes, hardware: Bytes, at: int): Conn {
    With(Cleared(conn), Received(version, Registration(firmware, hardware), at, true))
      .(receiver := False, controllerId := Str(conn.deviceId), firmware := Some(firmware), hardware := Some(hardware))
  }

  function Accepting(conn: Conn, firmware: Bytes, accepted: bool): Conn {
    if accepted then With(conn, Sent(FirmwareAccepted(conn.version, firmware))) else conn
  }

  function Asking(conn: Conn, nonce: Bytes): Conn {
    if conn.version == CONFIGURATION_VERSION then With(conn.(query := Some(nonce)), Sent(ConfigurationQuery(nonce)))
        else conn
  }

  function Proposing(conn: Conn, offer: Option<Offered>): Conn {
    if conn.open && offer.Some? && Encodable(OfferFrame(conn.version, offer.value)) then
      With(conn, Sent(OfferFrame(conn.version, offer.value)))
    else conn
  }

  function Acknowledging(conn: Conn, version: nat, nonce: Bytes, at: int): Conn {
    var matches := HasId(conn) && conn.pending.Some? && conn.pending.value.nonce == nonce;
    var logged := With(conn, Received(version, LedApplied(nonce), at, matches));
    if matches then logged.(applied := Some(conn.pending.value.leds), pending := None) else logged
  }

  function Proving(conn: Conn, version: nat, nonce: Bytes, digest: Bytes, at: int): Conn {
    var matches := HasId(conn) && conn.query == Some(nonce);
    var logged := With(conn, Received(version, ConfigurationReport(nonce, digest), at, matches));
    if matches then logged.(query := None, verified := Some(Verified(Credentials.ToHex(digest), at)))
        else logged.(open := false)
  }

  function Apply(conn: Conn, m: Move): Conn {
    match m
    case Close => conn.(open := false)
    case Idle => conn
    case Unavailable(version) => conn.(version := version, open := false)
    case Refuse(version) => With(conn, Sent(AuthResult(version, 1, []))).(version := version, challenge := None,
        open := false)
    case Enter(version, id, mac, at, device) =>
      With(With(conn, Received(version, AuthResponse(id, mac), at, true)), Sent(AuthResult(version, 0, id)))
        .(version := version, challenge := None, authenticated := true, deviceId := id, device := Some(device),
          receiver := Unset, controllerId := Null)
    case Lapse(version, firmware, hardware, at) => With(Cleared(conn),
        Received(version, Registration(firmware, hardware), at, false))
    case Enrol(version, firmware, hardware, at, accepted, nonce, offer) =>
      Proposing(Asking(Accepting(Enrolled(conn, version, firmware, hardware, at), firmware, accepted), nonce), offer)
    case Acknowledge(version, nonce, at) => Acknowledging(conn, version, nonce, at)
    case Prove(version, nonce, digest, at) => Proving(conn, version, nonce, digest, at)
    case Press(version, message, at) => With(conn, Received(version, message, at, true))
    case Light(nonce, leds) =>
      With(conn.(pending := Some(Pending(nonce, leds)), applied := None), Sent(LedCommand(nonce, leds)))
    case LightOld(leds) => With(conn, Sent(Configuration(conn.version, leds)))
    case Propose(offer) => Proposing(conn, Some(offer))
  }

  // ---- What most moves leave alone ----

  /** The connection keeps its kind, its role and its registration. */
  predicate Steady(a: Conn, b: Conn) {
    && b.keypad == a.keypad && b.receiver == a.receiver && b.controllerId == a.controllerId
    && b.authenticated == a.authenticated && b.deviceId == a.deviceId && b.firmware == a.firmware
       && b.hardware == a.hardware
    && (b.open ==> a.open)
  }

  predicate Registers(m: Move) {
    m.Enter? || m.Enrol?
  }

  lemma SteadyAcknowledging(conn: Conn, version: nat, nonce: Bytes, at: int)
    ensures Steady(conn, Acknowledging(conn, version, nonce, at))
  {}

  lemma SteadyProving(conn: Conn, version: nat, nonce: Bytes, digest: Bytes, at: int)
    ensures Steady(conn, Proving(conn, version, nonce, digest, at))
  {}

  lemma SteadyProposing(conn: Conn, offer: Option<Offered>)
    ensures Steady(conn, Proposing(conn, offer))
  {}

  lemma SteadyMove(conn: Conn, m: Move)
    requires !Registers(m)
    ensures Steady(conn, Apply(conn, m))
  {
    hide Acknowledging, Proving, Proposing, Steady;
    match m {
      case Acknowledge(version, nonce, at) => SteadyAcknowledging(conn, version, nonce, at);
      case Prove(version, nonce, digest, at) => SteadyProving(conn, version, nonce, digest, at);
      case Propose(release) => SteadyProposing(conn, Some(release));
      case _ => SteadyPlain(conn, m);
    }
  }

  lemma SteadyPlain(conn: Conn, m: Move)
    requires !Registers(m) && !m.Acknowledge? && !m.Prove? && !m.Propose?
    ensures Steady(conn, Apply(conn, m))
  {
    hide Acknowledging, Proving, Proposing;
  }

  // ---- Identity and version ----

  /** The protocol version a frame is written in. The challenge comes before any version is agreed. */
  function FrameVersion(frame: ServerFrame): nat {
    match frame
    case AuthChallenge(_) => 0
    case ConfigurationQuery(_) => CONFIGURATION_VERSION
    case LedCommand(_, _) => CONFIGURATION_VERSION
    case AuthResult(version, _, _) => version
    case Configuration(version, _) => version
    case UpdateAvailable(version, _, _, _, _, _) => version
    case FirmwareAccepted(version, _) => version
  }

  predicate Versioned(entry: Entry, version: nat) {
    match entry
    case Sent(frame) => FrameVersion(frame) == version
    case Received(v, _, _, _) => v == version
    case _ => false
  }

  predicate Challenged(trace: seq<Entry>) {
    |trace| >= 1 && trace[0].Sent? && trace[0].frame.AuthChallenge?
  }

  /**
   * The connection answered its own challenge with the secret of its id, was told so, and has spoken and been
   * spoken to in the version of that answer ever since.
   */
  predicate Proved(conn: Conn, hmac: Hmac) {
    && |conn.trace| >= 3 && Challenged(conn.trace) && conn.device.Some?
    && conn.trace[1].Received? && conn.trace[1].message.AuthResponse? && conn.trace[1].effective
    && conn.trace[1].message.deviceId == conn.deviceId
    && conn.trace[1].message.hmac == Proof(hmac, conn.device.value.secret, conn.deviceId, conn.trace[0].frame.challenge)
    && conn.trace[2] == Sent(AuthResult(conn.version, 0, conn.deviceId))
    && forall i :: 1 <= i < |conn.trace| ==> Versioned(conn.trace[i], conn.version)
  }

  predicate IdentityOk(conn: Conn, hmac: Hmac) {
    && Challenged(conn.trace)
    && (!conn.authenticated && conn.open ==>
          |conn.trace| == 1 && conn.challenge == Some(conn.trace[0].frame.challenge) && conn.query.None?
              && conn.pending.None?
          && conn.applied.None? && conn.verified.None?)
    && (conn.authenticated ==> Proved(conn, hmac))
  }

  lemma IdentityWith(conn: Conn, entry: Entry, hmac: Hmac)
    requires conn.authenticated && IdentityOk(conn, hmac) && Versioned(entry, conn.version)
    ensures IdentityOk(With(conn, entry), hmac)
  {
    hide Proof, Versioned;
  }

  /** The fields identity rests on. */
  predicate SameIdentity(a: Conn, b: Conn) {
    && b.trace == a.trace && b.authenticated == a.authenticated && b.version == a.version
    && b.deviceId == a.deviceId && b.device == a.device
  }

  lemma IdentityFields(a: Conn, b: Conn, hmac: Hmac)
    requires SameIdentity(a, b) && a.authenticated && IdentityOk(a, hmac)
    ensures IdentityOk(b, hmac)
  {
    hide Proof, Versioned;
  }

  lemma IdentityEntered(conn: Conn, m: Move, hmac: Hmac)
    requires IdentityOk(conn, hmac) && Allowed(conn, m, hmac) && m.Enter?
    ensures IdentityOk(Apply(conn, m), hmac)
  {
    hide Proof;
  }

  lemma IdentityLogged(conn: Conn, cleared: Conn, entry: Entry, result: Conn, hmac: Hmac)
    requires conn.authenticated && IdentityOk(conn, hmac) && Versioned(entry, conn.version)
    requires SameIdentity(conn, cleared) && SameIdentity(With(cleared, entry), result)
    ensures IdentityOk(result, hmac)
  {
    hide IdentityOk, Versioned;
    IdentityFields(conn, cleared, hmac);
    IdentityWith(cleared, entry, hmac);
    IdentityFields(With(cleared, entry), result, hmac);
  }

  lemma IdentityEnrolled(conn: Conn, m: Move, hmac: Hmac)
    requires IdentityOk(conn, hmac) && Allowed(conn, m, hmac) && m.Enrol?
    ensures IdentityOk(Apply(conn, m), hmac)
  {
    hide IdentityOk, Encodable;
    var a := Enrolled(conn, m.version, m.firmware, m.hardware, m.at);
    IdentityLogged(conn, Cleared(conn), Received(m.version, Registration(m.firmware, m.hardware), m.at, true), a,
        hmac);
    var b := Accepting(a, m.firmware, m.accepted);
    if m.accepted {
      IdentityLogged(a, a, Sent(FirmwareAccepted(a.version, m.firmware)), b, hmac);
    }
    var c := Asking(b, m.nonce);
    if b.version == CONFIGURATION_VERSION {
      IdentityLogged(b, b.(query := Some(m.nonce)), Sent(ConfigurationQuery(m.nonce)), c, hmac);
    }
    if Proposing(c, m.offer) != c {
      IdentityLogged(c, c, Sent(OfferFrame(c.version, m.offer.value)), Proposing(c, m.offer), hmac);
    }
  }

  /** Every move keeps the identity and the version of a connection. */
  lemma IdentityMove(conn: Conn, m: Move, hmac: Hmac)
    requires IdentityOk(conn, hmac) && Allowed(conn, m, hmac)
    ensures IdentityOk(Apply(conn, m), hmac)
  {
    hide Proof, Encodable, Credentials.ToHex, Proved, Enrolled, Accepting, Asking;
    match m {
      case Enter(_, _, _, _, _) => IdentityEntered(conn, m, hmac);
      case Enrol(_, _, _, _, _, _, _) => IdentityEnrolled(conn, m, hmac);
      case Close => if conn.authenticated { IdentityFields(conn, Apply(conn, m), hmac); }
      case Idle =>
      case Unavailable(_) =>
      case Refuse(_) =>
      case Lapse(version, fw, hw, at) =>
        IdentityLogged(conn, Cleared(conn), Received(version, Registration(fw, hw), at, false), Apply(conn, m),
            hmac);
      case Acknowledge(version, nonce, at) =>
        var entry := Apply(conn, m).trace[|conn.trace|];
        IdentityLogged(conn, conn, entry, Apply(conn, m), hmac);
      case Prove(version, nonce, digest, at) =>
        var entry := Apply(conn, m).trace[|conn.trace|];
        IdentityLogged(conn, conn, entry, Apply(conn, m), hmac);
      case Press(version, message, at) =>
        IdentityLogged(conn, conn, Received(version, message, at, true), Apply(conn, m), hmac);
      case Light(nonce, leds) =>
        IdentityLogged(conn, conn.(pending := Some(Pending(nonce, leds)), applied := None),
            Sent(LedCommand(nonce, leds)), Apply(conn, m), hmac);
      case LightOld(leds) => IdentityLogged(conn, conn, Sent(Configuration(conn.version, leds)), Apply(conn, m), hmac);
      case Propose(o) =>
        if Apply(conn, m) != conn {
          IdentityLogged(conn, conn, Sent(OfferFrame(conn.version, o)), Apply(conn, m), hmac);
        }
    }
  }
}
