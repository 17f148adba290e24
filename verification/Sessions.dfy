/**
 * What src/index.js and src/connection/registry.js do to their connections, one event handler at a time, as
 * functions from state to state. The classes in Server.dfy are proved to compute these functions.
 */
module Sessions {
  import opened Prelude
  import opened Credentials
  import opened DeviceAuth
  import opened Protocol
  import opened ServerFrames

  type ConnId = nat

  /** The `receiver` flag of a connection: `true` and `false` are told from other truthy and other falsy values. */
  datatype Flag = Unset | True | False | OtherTruthy

  /** A JSON value compared with `===`; every value that is neither absent nor text is a tag. */
  datatype Value = Undefined | Null | Str(s: Bytes) | Other(tag: nat)

  datatype Status = Connected | Disconnected | OtherStatus

  type Leds = seq<nat>

  datatype Verified = Verified(digest: Bytes, at: int)

  datatype Pending = Pending(nonce: Bytes, leds: Leds)

  /** What `deviceMetadata` adds to a registration message. */
  datatype Meta = Meta(authenticated: bool, firmware: Option<Bytes>, hardware: Option<Bytes>, leds: Option<Leds>,
      verified: Option<Verified>)

  /** The messages the server sends to browsers. */
  datatype Note =
    | Presence(id: Value, status: Status, meta: Meta)
    | LedState(id: Value, leds: Option<Leds>)
    | ConfigurationState(id: Value, verified: Verified)
    | Key(id: Value, text: Bytes)
    | Pressed(id: Value, key: string, state: string)
    | Login(text: Bytes)
    | Forwarded(id: Value, leds: Option<Leds>)

  /** One step in the life of a connection, in order. A frame has taken effect unless it was ignored or threw. */
  datatype Entry =
    | Sent(frame: ServerFrame)
    | Told(note: Note)
    | Received(version: nat, message: Message, at: int, effective: bool)
    | Joined

  /** A connection and the fields the handlers give it. */
  datatype Conn = Conn(
    keypad: bool,
    open: bool,
    receiver: Flag,
    controllerId: Value,
    authenticated: bool,
    deviceId: Bytes,
    version: nat,
    challenge: Option<Bytes>,
    device: Option<Device>,
    firmware: Option<Bytes>,
    hardware: Option<Bytes>,
    pending: Option<Pending>,
    applied: Option<Leds>,
    query: Option<Bytes>,
    verified: Option<Verified>,
    trace: seq<Entry>)

  /** Every connection so far, those in the registry in order, and the credentials last loaded. */
  datatype State = State(conns: map<ConnId, Conn>, live: seq<ConnId>, store: Devices)

  /** A registration as the dispatcher hands it on. */
  datatype Reg = Reg(receiver: Flag, id: Value, status: Status, firmware: Option<Bytes>, hardware: Option<Bytes>)

  // ---- Pieces ----

  function NewConn(keypad: bool): Conn {
    Conn(keypad, true, Unset, Null, false, [], 0, None, None, None, None, None, None, None, None, [])
  }

  predicate IsTruthy(flag: Flag) {
    flag.True? || flag.OtherTruthy?
  }

  /** `x || null` on text. */
  function OrNull(text: Option<Bytes>): Option<Bytes> {
    if text == Some([]) then None else text
  }

  function MetaOf(conn: Conn): Meta {
    if conn.authenticated then Meta(true, OrNull(conn.firmware), OrNull(conn.hardware), conn.applied, conn.verified)
    else Meta(false, None, None, None, None)
  }

  function PresenceOf(conn: Conn, status: Status): Note {
    Presence(conn.controllerId, status, MetaOf(conn))
  }

  function With(conn: Conn, entry: Entry): Conn {
    conn.(trace := conn.trace + [entry])
  }

  function Put(s: State, c: ConnId, conn: Conn): State {
    s.(conns := s.conns[c := conn])
  }

  lemma PutTwice(s: State, c: ConnId, a: Conn, b: Conn)
    ensures Put(Put(s, c, a), c, b) == Put(s, c, b)
  {
    assert s.conns[c := a][c := b] == s.conns[c := b];
  }

  function Log(s: State, c: ConnId, entry: Entry): State {
    if c in s.conns then Put(s, c, With(s.conns[c], entry)) else s
  }

  predicate HasFlag(s: State, c: ConnId, flag: Flag) {
    c in s.conns && s.conns[c].receiver == flag
  }

  /** The connections among `ids` with the given flag, in order. */
  function Select(s: State, ids: seq<ConnId>, flag: Flag): (r: seq<ConnId>)
    ensures |r| <= |ids| && forall c :: c in r <==> c in ids && HasFlag(s, c, flag)
  {
    if ids == [] then []
    else Select(s, ids[..|ids| - 1], flag) + if HasFlag(s, ids[|ids| - 1], flag) then [ids[|ids| - 1]] else []
  }

  function Receivers(s: State): seq<ConnId> {
    Select(s, s.live, True)
  }

  function Controllers(s: State): seq<ConnId> {
    Select(s, s.live, False)
  }

  /** The same entry for each connection in `ids`. */
  function LogEach(s: State, ids: seq<ConnId>, entry: Entry): State {
    s.(conns := map c | c in s.conns :: if c in ids then With(s.conns[c], entry) else s.conns[c])
  }

  function Broadcast(s: State, note: Note): State {
    LogEach(s, Receivers(s), Told(note))
  }

  // ---- The registry ----

  function Add(s: State, c: ConnId): State {
    if c in s.live || c !in s.conns then s
    else Put(s, c, s.conns[c].(receiver := Unset, controllerId := Null)).(live := s.live + [c])
  }

  function Without(ids: seq<ConnId>, c: ConnId): (r: seq<ConnId>)
    ensures |r| <= |ids| && forall k :: k in r <==> k in ids && k != c
  {
    if ids == [] then []
    else Without(ids[..|ids| - 1], c) + if ids[|ids| - 1] != c then [ids[|ids| - 1]] else []
  }

  /** Another controller in the registry has the same id. */
  predicate Held(s: State, id: Value) {
    exists k :: k in s.live && HasFlag(s, k, False) && s.conns[k].controllerId == id
  }

  /** `removeConnection`, with the registration it dispatches for the last controller of an id. */
  function Remove(s: State, c: ConnId): State {
    if c !in s.live || c !in s.conns then s
    else
      var t := s.(live := Without(s.live, c));
      var conn := s.conns[c];
      if conn.receiver.False? && conn.controllerId.Str? && !Held(t, conn.controllerId) then
        if conn.authenticated && conn.controllerId != Str(conn.deviceId) then Put(t, c, conn.(open := false))
        else Broadcast(t, PresenceOf(conn, Disconnected))
      else t
  }

  // ---- Registration ----

  /** The registered keypads that a newly registered one replaces. */
  predicate Replaced(s: State, c: ConnId, k: ConnId) {
    && c in s.conns && k in s.conns && k != c
    && s.conns[k].authenticated && s.conns[k].controllerId == s.conns[c].controllerId
  }

  function Terminate(s: State, c: ConnId): State {
    if c in s.conns then Put(s, c, s.conns[c].(open := false)) else s
  }

  /** The connections among `ids` that connection `c` replaces. */
  function Candidates(s: State, c: ConnId, ids: seq<ConnId>): (r: seq<ConnId>)
    ensures |r| <= |ids| && forall k :: k in r <==> k in ids && Replaced(s, c, k)
  {
    if ids == [] then []
    else
      var k := ids[|ids| - 1];
      Candidates(s, c, ids[..|ids| - 1]) + if Replaced(s, c, k) then [k] else []
  }

  /** The connections in `ids`, removed and terminated in order. */
  function Retire(s: State, ids: seq<ConnId>): State {
    if ids == [] then s
    else
      var t, k := Retire(s, ids[..|ids| - 1]), ids[|ids| - 1];
      Terminate(Remove(t, k), k)
  }

  /** One message for each controller in `ids`. */
  function Snapshot(s: State, ids: seq<ConnId>): (r: seq<Entry>)
    ensures |r| <= |ids|
  {
    if ids == [] then []
    else
      var k := ids[|ids| - 1];
      Snapshot(s, ids[..|ids| - 1]) + if k in s.conns then [Told(PresenceOf(s.conns[k], Connected))] else []
  }

  function Registering(conn: Conn, r: Reg): Conn {
    conn.(receiver := r.receiver, controllerId := r.id,
          firmware := if r.status.Disconnected? then conn.firmware else r.firmware,
          hardware := if r.status.Disconnected? then conn.hardware else r.hardware)
  }

  function Register(s: State, c: ConnId, r: Reg): State {
    if c !in s.conns then s
    else if s.conns[c].authenticated && r.id != Str(s.conns[c].deviceId) then Terminate(s, c)
    else
      var t := Put(s, c, Registering(s.conns[c], r));
      if IsTruthy(r.receiver) then
        var conn := With(t.conns[c], Joined);
        Put(t, c, conn.(trace := conn.trace + Snapshot(t, Controllers(t))))
      else
        var u := if r.status.Connected? && t.conns[c].authenticated then Retire(t, Candidates(t, c, Controllers(t)))
            else t;
        if c in u.conns then Broadcast(u, PresenceOf(u.conns[c], r.status)) else u
  }

  // ---- LED configuration ----

  /** A new LED command for a version 3 keypad: the old confirmation is withdrawn before the command is sent. */
  function Command(s: State, k: ConnId, leds: Leds, nonce: Bytes): State
    requires k in s.conns
  {
    var conn := s.conns[k];
    var t := Put(s, k, conn.(pending := Some(Pending(nonce, leds)), applied := None));
    Log(Broadcast(t, LedState(conn.controllerId, None)), k, Sent(LedCommand(nonce, leds)))
  }

  /** The colours an encoder takes. */
  predicate Sendable(leds: Option<Leds>) {
    leds.Some? && Channels(leds.value)
  }

  /** One command per controller of the id; an encoder that throws ends the loop. */
  function Configure(s: State, targets: seq<ConnId>, leds: Option<Leds>, nonces: seq<Bytes>): State
    decreases |targets|
  {
    if targets == [] || targets[0] !in s.conns then s
    else
      var k, conn := targets[0], s.conns[targets[0]];
      if conn.keypad && conn.version == CONFIGURATION_VERSION then
        if !Sendable(leds) || nonces == [] then s
        else Configure(Command(s, k, leds.value, nonces[0]), targets[1..], leds, nonces[1..])
      else if conn.keypad then
        if !Sendable(leds) || !KnownVersion(conn.version) then s
        else Configure(Log(s, k, Sent(Configuration(conn.version, leds.value))), targets[1..], leds, nonces)
      else
        Configure(Log(s, k, Told(Forwarded(conn.controllerId, leds))), targets[1..], leds, nonces)
  }

  function Named(s: State, ids: seq<ConnId>, id: Value): (r: seq<ConnId>)
    ensures |r| <= |ids| && forall c :: c in r <==> c in ids && c in s.conns && s.conns[c].controllerId == id
  {
    if ids == [] then []
    else
      var k := ids[|ids| - 1];
      Named(s, ids[..|ids| - 1], id) + if k in s.conns && s.conns[k].controllerId == id then [k] else []
  }

  // ---- Keypad frames ----

  /** What a handler draws from outside: fresh nonces, the clock, the credentials file and the firmware catalogue. */
  datatype Environment = Environment(
    nonce: Bytes,
    at: int,
    loaded: Option<Devices>,
    available: bool,
    offer: Option<Offered>)

  /** The contents of an update offer. */
  datatype Offered = Offered(firmware: Bytes, size: nat, digest: Bytes, url: Bytes, token: Bytes)

  function OfferFrame(version: nat, o: Offered): ServerFrame {
    UpdateAvailable(version, o.firmware, o.size, o.digest, o.url, o.token)
  }

  /** `rollout.offer` once it has chosen: a frame that cannot be encoded is not sent. */
  function SendOffer(s: State, c: ConnId, offer: Option<Offered>): State {
    if c in s.conns && s.conns[c].open && offer.Some? && Encodable(OfferFrame(s.conns[c].version, offer.value)) then
      Log(s, c, Sent(OfferFrame(s.conns[c].version, offer.value)))
    else s
  }

  function Authenticate(s: State, c: ConnId, version: nat, id: Bytes, mac: Bytes, env: Environment, hmac: Hmac): State
    requires c in s.conns
  {
    var conn := s.conns[c].(version := version);
    if env.loaded.None? || conn.challenge.None? then Put(s, c, conn.(open := false))
    else
      var t := s.(store := env.loaded.value);
      var known := id in t.store;
      if !known || mac != Proof(hmac, t.store[id].secret, id, conn.challenge.value) then
        Put(t, c, With(conn, Sent(AuthResult(version, 1, []))).(challenge := None, open := false))
      else
        var accepted := With(conn, Received(version, AuthResponse(id, mac), env.at, true))
          .(challenge := None, authenticated := true, deviceId := id, device := Some(t.store[id]));
        Log(Add(Put(t, c, accepted), c), c, Sent(AuthResult(version, 0, id)))
  }

  /** The frames a registration is answered with: the acceptance, a query in version 3, and an offer, in that order. */
  function Answer(s: State, c: ConnId, firmware: Bytes, accepted: bool, env: Environment): State
    requires c in s.conns
  {
    var conn := s.conns[c];
    var t := if accepted then Log(s, c, Sent(FirmwareAccepted(conn.version, firmware))) else s;
    var u := if conn.version == CONFIGURATION_VERSION then
               Log(Put(t, c, t.conns[c].(query := Some(env.nonce))), c, Sent(ConfigurationQuery(env.nonce)))
             else t;
    SendOffer(u, c, env.offer)
  }

  function RegisterKeypad(s: State, c: ConnId, version: nat, firmware: Bytes, hardware: Bytes, env: Environment): State
    requires c in s.conns
  {
    var conn := s.conns[c].(pending := None, applied := None, verified := None);
    var known := conn.deviceId in s.store;
    var t := Put(s, c, With(conn, Received(version, Registration(firmware, hardware), env.at, known)));
    if !known then t
    else
      var target := s.store[conn.deviceId].targetVersion;
      var accepted := OrNull(target).None? || (target == Some(firmware) && env.available);
      var u := Register(t, c, Reg(False, Str(conn.deviceId), Connected, Some(firmware), Some(hardware)));
      if c in u.conns then Answer(u, c, firmware, accepted, env) else u
  }

  predicate HasId(conn: Conn) {
    conn.controllerId.Str? && conn.controllerId.s != []
  }

  function AcknowledgeLeds(s: State, c: ConnId, version: nat, nonce: Bytes, env: Environment): State
    requires c in s.conns
  {
    var conn := s.conns[c];
    var matches := HasId(conn) && conn.pending.Some? && conn.pending.value.nonce == nonce;
    var t := Put(s, c, With(conn, Received(version, LedApplied(nonce), env.at, matches)));
    if !matches then t
    else
      var applied := Some(conn.pending.value.leds);
      Broadcast(Put(t, c, t.conns[c].(applied := applied, pending := None)), LedState(Str(conn.deviceId), applied))
  }

  function Report(s: State, c: ConnId, version: nat, nonce: Bytes, digest: Bytes, env: Environment): State
    requires c in s.conns
  {
    var conn := s.conns[c];
    var matches := HasId(conn) && conn.query == Some(nonce);
    var t := Put(s, c, With(conn, Received(version, ConfigurationReport(nonce, digest), env.at, matches)));
    if !matches then Terminate(t, c)
    else
      var verified := Verified(ToHex(digest), env.at);
      Broadcast(Put(t, c, t.conns[c].(query := None, verified := Some(verified))),
          ConfigurationState(Str(conn.deviceId), verified))
  }

  /** The message handler of a keypad connection. */
  function Frame(s: State, c: ConnId, binary: bool, data: Bytes, env: Environment, hmac: Hmac): State
    requires c in s.conns
  {
    var conn := s.conns[c];
    if !binary || |data| == 0 || |data| > MAX_DEVICE_FRAME_SIZE || Delivered(data).None? then Terminate(s, c)
    else
      var (version, message) := Delivered(data).value;
      if !conn.authenticated then
        match message
        case AuthResponse(id, mac) => Authenticate(s, c, version, id, mac, env, hmac)
        case _ => Terminate(s, c)
      else if version != conn.version then Terminate(s, c)
      else
        match message
        case Registration(firmware, hardware) => RegisterKeypad(s, c, version, firmware, hardware, env)
        case LedApplied(nonce) => AcknowledgeLeds(s, c, version, nonce, env)
        case ConfigurationReport(nonce, digest) => Report(s, c, version, nonce, digest, env)
        case KeyEvent(key, state) =>
          Broadcast(Put(s, c, With(conn, Received(version, message, env.at, true))),
              Pressed(Str(conn.deviceId), key, state))
        case AuthResponse(_, _) => Terminate(s, c)
  }

  // ---- Events ----

  datatype Event =
    | OpenBrowser(c: ConnId)
    | OpenKeypad(c: ConnId, nonce: Bytes)
    | BrowserRegistration(c: ConnId, reg: Reg)
    | BrowserConfiguration(c: ConnId, id: Value, leds: Option<Leds>, nonces: seq<Bytes>)
    | BrowserKey(c: ConnId, id: Value, text: Bytes)
    | PlayerLogin(text: Bytes)
    | KeypadFrame(c: ConnId, binary: bool, data: Bytes, env: Environment)
    | Offer(c: ConnId, offer: Offered)
    | HealthCheck(c: ConnId)
    | Closed(c: ConnId)
    | Reloaded(store: Devices)

  predicate Talking(s: State, c: ConnId, keypad: bool) {
    c in s.conns && s.conns[c].open && s.conns[c].keypad == keypad
  }

  function Step(s: State, e: Event, hmac: Hmac): State {
    match e
    case OpenBrowser(c) => if c in s.conns then s else Add(Put(s, c, NewConn(false)), c)
    case OpenKeypad(c, nonce) =>
      if c in s.conns then s
      else Put(s, c, With(NewConn(true).(challenge := Some(nonce)), Sent(AuthChallenge(nonce))))
    case BrowserRegistration(c, r) => if Talking(s, c, false) then Register(s, c, r) else s
    case BrowserConfiguration(c, id, leds, nonces) =>
      if Talking(s, c, false) then Configure(s, Named(s, Controllers(s), id), leds, nonces) else s
    case BrowserKey(c, id, text) => if Talking(s, c, false) then Broadcast(s, Key(id, text)) else s
    case PlayerLogin(text) => Broadcast(s, Login(text))
    case KeypadFrame(c, binary, data, env) => if Talking(s, c, true) then Frame(s, c, binary, data, env, hmac) else s
    case Offer(c, offer) => if MayOffer(s, c) then SendOffer(s, c, Some(offer)) else s
    case HealthCheck(c) => if c in s.live then Terminate(s, c) else s
    case Closed(c) => if c in s.conns then Remove(Terminate(s, c), c) else s
    case Reloaded(store) => s.(store := store)
  }

  /** The filter of the offers made when new firmware appears. */
  predicate MayOffer(s: State, c: ConnId) {
    && Talking(s, c, true) && s.conns[c].authenticated
    && OrNull(s.conns[c].firmware).Some? && OrNull(s.conns[c].hardware).Some?
  }

  function Run(s: State, events: seq<Event>, hmac: Hmac): State
    decreases |events|
  {
    if events == [] then s else Run(Step(s, events[0], hmac), events[1..], hmac)
  }

  const START := State(map[], [], map[])
}
