/**
 * src/connection/registry.js and the handlers of src/index.js in their own form: connection objects updated in
 * place, and a server object holding the registry. Every handler is proved to compute the function of Sessions.
 */
module Server {
  import opened Prelude
  import Credentials
  import opened DeviceAuth
  import opened Protocol
  import opened ServerFrames
  import opened Sessions
  import FrameCursor

  /** A connection; `trace` is what has been sent to it and received from it. */
  class Connection {
    const id: ConnId
    const keypad: bool
    var open: bool
    var receiver: Flag
    var controllerId: Value
    var authenticated: bool
    var deviceId: Bytes
    var version: nat
    var challenge: Option<Bytes>
    var device: Option<Credentials.Device>
    var firmware: Option<Bytes>
    var hardware: Option<Bytes>
    var pending: Option<Pending>
    var applied: Option<Leds>
    var query: Option<Bytes>
    var verified: Option<Verified>
    var trace: seq<Entry>

    constructor (id: ConnId, keypad: bool)
      ensures this.id == id && View() == NewConn(keypad)
    {
      this.id, this.keypad, open, receiver, controllerId := id, keypad, true, Unset, Null;
      authenticated, deviceId, version, challenge, device := false, [], 0, None, None;
      firmware, hardware, pending, applied, query, verified, trace := None, None, None, None, None, None, [];
    }

    function View(): Conn
      reads this
    {
      Conn(keypad, open, receiver, controllerId, authenticated, deviceId, version, challenge, device,
           firmware, hardware, pending, applied, query, verified, trace)
    }

    method Forget()
      modifies this
      ensures View() == old(View()).(receiver := Unset, controllerId := Null)
    {
      receiver, controllerId := Unset, Null;
    }

    method Await(nonce: Bytes, leds: Leds)
      modifies this
      ensures View() == old(View()).(pending := Some(Pending(nonce, leds)), applied := None)
      ensures controllerId == old(controllerId)
    {
      pending := Some(Pending(nonce, leds));
      applied := None;
    }

    method SetChallenge(nonce: Bytes)
      modifies this
      ensures View() == old(View()).(challenge := Some(nonce))
    {
      challenge := Some(nonce);
    }

    method SetVersion(version: nat)
      modifies this
      ensures View() == old(View()).(version := version) && challenge == old(challenge)
    {
      this.version := version;
    }

    method Refuse(version: nat)
      modifies this
      ensures View() == With(old(View()), Sent(AuthResult(version, 1, []))).(challenge := None, open := false)
    {
      Record(Sent(AuthResult(version, 1, [])));
      challenge, open := None, false;
    }

    method Accept(version: nat, id: Bytes, mac: Bytes, at: int, device: Credentials.Device)
      modifies this
      ensures View() == With(old(View()), Received(version, AuthResponse(id, mac), at, true))
                        .(challenge := None, authenticated := true, deviceId := id, device := Some(device))
    {
      Record(Received(version, AuthResponse(id, mac), at, true));
      challenge, authenticated, deviceId := None, true, id;
      this.device := Some(device);
    }

    method Ask(nonce: Bytes)
      modifies this
      ensures View() == old(View()).(query := Some(nonce))
    {
      query := Some(nonce);
    }

    method Clear(entry: Entry)
      modifies this
      ensures View() == With(old(View()).(pending := None, applied := None, verified := None), entry)
    {
      pending, applied, verified := None, None, None;
      Record(entry);
    }

    method Enrol(r: Reg)
      modifies this
      ensures View() == Registering(old(View()), r)
    {
      receiver, controllerId := r.receiver, r.id;
      if !r.status.Disconnected? {
        firmware, hardware := r.firmware, r.hardware;
      }
    }

    method Record(entry: Entry)
      modifies this
      ensures View() == With(old(View()), entry)
    {
      trace := trace + [entry];
    }
  }

  function Ids(connections: seq<Connection>): (r: seq<ConnId>)
    ensures |r| == |connections| && forall i :: 0 <= i < |r| ==> r[i] == connections[i].id
  {
    seq(|connections|, i requires 0 <= i < |connections| => connections[i].id)
  }

  class Server {
    var connections: seq<Connection>
    var store: Credentials.Devices
    ghost var known: map<ConnId, Connection>

    /** Connections are known by their ids, and the registry lists known ones once each. */
    ghost predicate Valid()
      reads this, known.Values
    {
      && (forall k :: k in known ==> known[k].id == k)
      && (forall c :: c in connections ==> Known(c))
      && Once(connections)
    }

    ghost predicate Known(c: Connection)
      reads this
    {
      c.id in known && known[c.id] == c
    }

    ghost function View(): State
      reads this, known.Values
    {
      State(map k | k in known :: known[k].View(), Ids(connections), store)
    }

    constructor ()
      ensures Valid() && View() == START
    {
      connections, store, known := [], map[], map[];
    }

    /** A connection's fields change; nothing else does. */
    twostate lemma Changed(c: Connection)
      requires old(Valid()) && known == old(known) && connections == old(connections) && store == old(store)
      requires old(Known(c))
      requires forall k :: k in known && known[k] != c ==> known[k].View() == old(known[k].View())
      ensures Valid() && View() == Put(old(View()), c.id, c.View())
    {
      assert View().conns.Keys == Put(old(View()), c.id, c.View()).conns.Keys;
    }

    /** What the view says of one connection. */
    lemma Here(c: Connection)
      requires Valid() && Known(c)
      ensures c.id in View().conns && View().conns[c.id] == c.View()
    {}

    /** Ids stand for connections. */
    lemma Named(c: Connection, list: seq<Connection>)
      requires Valid() && Known(c) && forall k :: k in list ==> Known(k)
      ensures c.id in Ids(list) <==> c in list
    {
      if c.id in Ids(list) {
        var i :| 0 <= i < |list| && Ids(list)[i] == c.id;
        assert Known(list[i]);
      }
      if c in list {
        var i :| 0 <= i < |list| && list[i] == c;
        assert Ids(list)[i] == c.id;
      }
    }

    method Send(c: Connection, entry: Entry)
      requires Valid() && Known(c)
      modifies c
      ensures Valid() && View() == Log(old(View()), c.id, entry) && c.View() == With(old(c.View()), entry)
    {
      c.Record(entry);
      Changed(c);
    }

    /** The connections in the registry with the given `receiver` flag. */
    method Select(flag: Flag) returns (r: seq<Connection>)
      requires Valid()
      ensures Ids(r) == Sessions.Select(View(), View().live, flag)
      ensures Once(r) && forall c :: c in r ==> c in connections && c.receiver == flag
    {
      hide Sessions.Select;
      ghost var s := View();
      r := [];
      for i := 0 to |connections|
        invariant Ids(r) == Sessions.Select(s, s.live[..i], flag)
        invariant Once(r) && forall c :: c in r ==> c in connections[..i] && c.receiver == flag
      {
        var c := connections[i];
        SelectNext(s, s.live, i, flag);
        assert Known(c) && c.id in s.conns && s.conns[c.id].receiver == c.receiver;
        if c.receiver == flag {
          assert c !in r;
          r := r + [c];
        }
      }
      assert s.live[..|connections|] == s.live;
    }

    method Broadcast(note: Note)
      requires Valid()
      modifies known.Values
      ensures Valid() && View() == Sessions.Broadcast(old(View()), note)
    {
      hide Sessions.Select, Log, LogEach, Connection.View;
      ghost var s := View();
      var receivers := Select(True);
      LogNobody(s, Told(note));
      for i := 0 to |receivers|
        invariant Valid() && View() == LogEach(s, Ids(receivers[..i]), Told(note))
      {
        var c := receivers[i];
        assert Known(c) && c !in receivers[..i];
        Named(c, receivers[..i]);
        Here(c);
        LogNext(s, Ids(receivers[..i]), c.id, Told(note));
        assert Ids(receivers[..i + 1]) == Ids(receivers[..i]) + [c.id];
        Send(c, Told(note));
      }
      assert receivers[..|receivers|] == receivers;
    }

    // ---- The registry ----

    method AddConnection(c: Connection)
      requires Valid() && Known(c)
      modifies this`connections, c
      ensures Valid() && View() == Add(old(View()), c.id)
    {
      hide Connection.View;
      Named(c, connections);
      Here(c);
      if c in connections {
        return;
      }
      c.Forget();
      Changed(c);
      connections := connections + [c];
      assert Ids(connections) == old(Ids(connections)) + [c.id];
    }

    method RemoveConnection(c: Connection)
      requires Valid() && Known(c)
      modifies this`connections, known.Values
      ensures Valid() && View() == Remove(old(View()), c.id)
      decreases 1
    {
      hide Without, Sessions.Broadcast, Sessions.Select;
      ghost var s := View();
      Named(c, connections);
      Here(c);
      if c !in connections {
        return;
      }
      Drop(c);
      ghost var t := s.(live := Sessions.Without(s.live, c.id));
      var held := exists k :: k in connections && k.receiver.False? && k.controllerId == c.controllerId;
      assert held == Held(t, c.controllerId) by { HeldHere(c.controllerId); }
      if c.receiver.False? && c.controllerId.Str? && !held {
        LeavingIsRegistering(t, c.id);
        HandleRegistration(c, Reg(c.receiver, c.controllerId, Disconnected, None, None));
      }
    }

    method Drop(c: Connection)
      requires Valid() && Known(c)
      modifies this`connections
      ensures Valid() && View() == old(View()).(live := Sessions.Without(old(View()).live, c.id))
      ensures forall k :: k in connections ==> k in old(connections)
    {
      hide Without;
      var kept: seq<Connection> := [];
      ghost var live := View().live;
      for i := 0 to |connections|
        modifies {}
        invariant Ids(kept) == Sessions.Without(live[..i], c.id)
        invariant Once(kept) && forall k :: k in kept ==> k in connections[..i]
      {
        var k := connections[i];
        DropNext(live, i, c.id);
        assert Known(k) && (k == c <==> k.id == c.id);
        if k != c {
          assert k !in kept;
          kept := kept + [k];
        }
      }
      assert live[..|connections|] == live;
      assert forall k :: k in kept ==> k in old(connections) && Known(k);
      connections := kept;
      assert View().conns == old(View()).conns && View().live == Ids(kept);
    }

    // ---- Registration ----

    method Close(c: Connection)
      requires Valid() && Known(c)
      modifies c
      ensures Valid() && View() == Terminate(old(View()), c.id)
    {
      c.open := false;
      Changed(c);
    }

    method HandleRegistration(c: Connection, r: Reg)
      requires Valid() && Known(c)
      modifies this`connections, known.Values
      ensures Valid() && View() == Sessions.Register(old(View()), c.id, r)
      decreases if r.status.Connected? then 3 else 0
    {
      hide Sessions.Broadcast, Sessions.Select, Snapshot, Candidates, Sessions.Retire, PresenceOf, With;
      ghost var s := View();
      Here(c);
      if c.authenticated && r.id != Str(c.deviceId) {
        Close(c);
        return;
      }
      c.Enrol(r);
      Changed(c);
      ghost var t := Put(s, c.id, Registering(s.conns[c.id], r));
      assert View() == t;
      Here(c);
      if IsTruthy(c.receiver) {
        ListControllers(c);
      } else {
        if r.status.Connected? && c.authenticated {
          Retire(c);
        }
        Here(c);
        Broadcast(PresenceOf(c.View(), r.status));
      }
    }

    /** Tells a new receiver of every controller. */
    method ListControllers(c: Connection)
      requires Valid() && Known(c) && !c.receiver.False?
      modifies c
      ensures var s := old(View());
              var conn := With(s.conns[c.id], Joined);
              Valid() && View() == Put(s, c.id, conn.(trace := conn.trace + Snapshot(s, Controllers(s))))
    {
      hide Sessions.Select, Snapshot, PresenceOf, Log, Connection.View, With, Listing;
      ghost var s := View();
      Here(c);
      var controllers := Select(False);
      ghost var conn := With(s.conns[c.id], Joined);
      c.Record(Joined);
      Changed(c);
      ListedNone(s, c.id, conn);
      for i := 0 to |controllers|
        invariant Valid() && View() == Listing(s, c.id, conn, Snapshot(s, Ids(controllers[..i])))
      {
        var k := controllers[i];
        SameElsewhere(s, c, k, conn, Snapshot(s, Ids(controllers[..i])));
        SnapshotNext(s, Ids(controllers), i);
        assert Ids(controllers[..i + 1]) == Ids(controllers)[..i + 1] && Ids(controllers[..i]) == Ids(controllers)[..i];
        ListedNext(s, c.id, conn, Snapshot(s, Ids(controllers[..i])), Told(PresenceOf(k.View(), Connected)));
        Send(c, Told(PresenceOf(k.View(), Connected)));
      }
      assert controllers[..|controllers|] == controllers;
      ListedAll(s, c.id, conn, Snapshot(s, Ids(controllers)));
    }

    /** While only `c` changes, another connection is as it was. */
    lemma SameElsewhere(s: State, c: Connection, k: Connection, conn: Conn, notes: seq<Entry>)
      requires Valid() && Known(c) && Known(k) && k != c && View() == Listing(s, c.id, conn, notes)
      ensures k.id in s.conns && s.conns[k.id] == k.View()
    {
      assert k.id != c.id;
      Here(k);
    }

    /** The registered keypads that `c` replaces. */
    method FindReplaced(c: Connection) returns (replaced: seq<Connection>)
      requires Valid() && Known(c)
      ensures var s := View(); Ids(replaced) == Candidates(s, c.id, Controllers(s))
      ensures forall k :: k in replaced ==> k in connections
    {
      hide Sessions.Select, Candidates, Connection.View;
      ghost var s := View();
      var controllers := Select(False);
      replaced := [];
      for i := 0 to |controllers|
        invariant Ids(replaced) == Candidates(s, c.id, Ids(controllers)[..i])
        invariant forall k :: k in replaced ==> k in connections
      {
        var k := controllers[i];
        CandidatesNext(s, c.id, Ids(controllers), i);
        ReplacedHere(c, k);
        if k != c && k.authenticated && k.controllerId == c.controllerId {
          replaced := replaced + [k];
        }
      }
      assert Ids(controllers)[..|controllers|] == Ids(controllers);
    }

    lemma ReplacedHere(c: Connection, k: Connection)
      requires Valid() && Known(c) && Known(k)
      ensures Replaced(View(), c.id, k.id) <==> k != c && k.authenticated && k.controllerId == c.controllerId
    {
      assert k == c <==> k.id == c.id;
    }

    /** Removes and terminates the registered keypads that `c` replaces. */
    method Retire(c: Connection)
      requires Valid() && Known(c)
      modifies this`connections, known.Values
      ensures var s := old(View()); Valid() && View() == Sessions.Retire(s, Candidates(s, c.id, Controllers(s)))
      decreases 2
    {
      hide Sessions.Select, Candidates, Sessions.Retire, Remove, Terminate, Connection.View;
      ghost var s := View();
      var replaced := FindReplaced(c);
      RetireNone(s);
      for i := 0 to |replaced|
        invariant Valid() && View() == Sessions.Retire(s, Ids(replaced)[..i]) && forall k :: k in replaced ==> Known(k)
      {
        var k := replaced[i];
        RetireNext(s, Ids(replaced), i);
        RemoveConnection(k);
        Close(k);
      }
      assert Ids(replaced)[..|replaced|] == Ids(replaced);
    }

    // ---- LED configuration ----

    /** The controllers with the given id. */
    method NamedControllers(id: Value) returns (targets: seq<Connection>)
      requires Valid()
      ensures var s := View(); Ids(targets) == Sessions.Named(s, Controllers(s), id)
      ensures forall k :: k in targets ==> Known(k)
    {
      hide Sessions.Select, Sessions.Named, Connection.View;
      ghost var s := View();
      var controllers := Select(False);
      targets := [];
      for i := 0 to |controllers|
        invariant Ids(targets) == Sessions.Named(s, Ids(controllers)[..i], id)
        invariant forall k :: k in targets ==> Known(k)
      {
        var k := controllers[i];
        NamedNext(s, Ids(controllers), i, id);
        IdHere(k);
        if k.controllerId == id {
          targets := targets + [k];
        }
      }
      assert Ids(controllers)[..|controllers|] == Ids(controllers);
    }

    lemma IdHere(k: Connection)
      requires Valid() && Known(k)
      ensures k.id in View().conns && View().conns[k.id].controllerId == k.controllerId
      ensures View().conns[k.id].keypad == k.keypad && View().conns[k.id].version == k.version
      ensures View().conns[k.id].open == k.open
    {}

    method Command(k: Connection, leds: Leds, nonce: Bytes)
      requires Valid() && Known(k)
      modifies known.Values
      ensures Valid() && View() == Sessions.Command(old(View()), k.id, leds, nonce)
    {
      hide Connection.View, Sessions.Broadcast, Log;
      Here(k);
      IdHere(k);
      k.Await(nonce, leds);
      Changed(k);
      Broadcast(LedState(k.controllerId, None));
      Send(k, Sent(LedCommand(nonce, leds)));
    }

    method HandleConfiguration(id: Value, leds: Option<Leds>, nonces: seq<Bytes>)
      requires Valid()
      modifies known.Values
      ensures Valid()
      ensures View() == Configure(old(View()), Sessions.Named(old(View()), Controllers(old(View())), id), leds, nonces)
    {
      hide Connection.View, Sessions.Named, Controllers, Sessions.Command, Log, Configure;
      ghost var s := View();
      var targets := NamedControllers(id);
      var rest := nonces;
      assert targets[0..] == targets;
      for i := 0 to |targets|
        invariant Valid() && forall k :: k in targets ==> Known(k)
        invariant Configure(s, Ids(targets), leds, nonces) == Configure(View(), Ids(targets[i..]), leds, rest)
      {
        var k := targets[i];
        IdHere(k);
        ConfigureNext(View(), Ids(targets[i..]), leds, rest);
        assert Ids(targets[i..])[1..] == Ids(targets[i + 1..]);
        if k.keypad && k.version == CONFIGURATION_VERSION {
          if !Sendable(leds) || rest == [] {
            return;
          }
          Command(k, leds.value, rest[0]);
          rest := rest[1..];
        } else if k.keypad {
          if !Sendable(leds) || !KnownVersion(k.version) {
            return;
          }
          Send(k, Sent(Configuration(k.version, leds.value)));
        } else {
          Send(k, Told(Forwarded(k.controllerId, leds)));
        }
      }
      assert targets[|targets|..] == [];
      ConfigureNone(View(), leds, rest);
    }

    // ---- Keypad frames ----

    method Authenticate(c: Connection, version: nat, id: Bytes, mac: Bytes, env: Environment, hmac: Hmac)
      requires Valid() && Known(c)
      modifies this`connections, this`store, c
      ensures Valid() && View() == Sessions.Authenticate(old(View()), c.id, version, id, mac, env, hmac)
    {
      hide Connection.View, Add, With, Proof, Judged, Terminate, Put;
      ghost var s := View();
      Here(c);
      DeviceHere(c);
      c.SetVersion(version);
      Changed(c);
      if env.loaded.None? || c.challenge.None? {
        Close(c);
        ClosedTwice(s, c.id, s.conns[c.id].(version := version));
        return;
      }
      label Loading:
      store := env.loaded.value;
      assert View() == old@Loading(View()).(store := env.loaded.value);
      DeviceHere(c);
      Judge(c, version, id, mac, env.at, hmac);
      AuthenticateJudges(s, c.id, version, id, mac, env, hmac);
    }

    /** Checks the proof of an answer and replies. */
    method Judge(c: Connection, version: nat, id: Bytes, mac: Bytes, at: int, hmac: Hmac)
      requires Valid() && Known(c) && c.challenge.Some?
      modifies this`connections, c
      ensures Valid() && View() == Judged(old(View()), c.id, version, id, mac, at, hmac)
    {
      hide Connection.View, Add, With, Proof, Put, Log;
      Here(c);
      DeviceHere(c);
      var expected := if id in store then Some(Proof(hmac, store[id].secret, id, c.challenge.value)) else None;
      if expected != Some(mac) {
        c.Refuse(version);
        Changed(c);
        return;
      }
      c.Accept(version, id, mac, at, store[id]);
      Changed(c);
      AddConnection(c);
      Send(c, Sent(AuthResult(version, 0, id)));
    }

    method SendOffer(c: Connection, offer: Option<Offered>)
      requires Valid() && Known(c)
      modifies c
      ensures Valid() && View() == Sessions.SendOffer(old(View()), c.id, offer)
    {
      hide Connection.View, Log, Encodable;
      IdHere(c);
      if c.open && offer.Some? && Encodable(OfferFrame(c.version, offer.value)) {
        Send(c, Sent(OfferFrame(c.version, offer.value)));
      }
    }

    method Answer(c: Connection, firmware: Bytes, accepted: bool, env: Environment)
      requires Valid() && Known(c)
      modifies c
      ensures Valid() && View() == Sessions.Answer(old(View()), c.id, firmware, accepted, env)
    {
      hide Connection.View, Sessions.SendOffer;
      IdHere(c);
      var version := c.version;
      if accepted {
        Send(c, Sent(FirmwareAccepted(version, firmware)));
      }
      if version == CONFIGURATION_VERSION {
        label Asking:
        Here(c);
        c.Ask(env.nonce);
        Changed@Asking(c);
        Send(c, Sent(ConfigurationQuery(env.nonce)));
      }
      SendOffer(c, env.offer);
    }

    method RegisterKeypad(c: Connection, version: nat, firmware: Bytes, hardware: Bytes, env: Environment)
      requires Valid() && Known(c)
      modifies this`connections, known.Values
      ensures Valid() && View() == Sessions.RegisterKeypad(old(View()), c.id, version, firmware, hardware, env)
    {
      hide Connection.View, Sessions.Register, Sessions.Answer, With, OrNull;
      Here(c);
      var id := c.deviceId;
      DeviceHere(c);
      c.Clear(Received(version, Registration(firmware, hardware), env.at, id in store));
      Changed(c);
      if id !in store {
        return;
      }
      var target := store[id].targetVersion;
      var accepted := OrNull(target).None? || (target == Some(firmware) && env.available);
      HandleRegistration(c, Reg(False, Str(id), Connected, Some(firmware), Some(hardware)));
      Here(c);
      Answer(c, firmware, accepted, env);
    }

    lemma DeviceHere(c: Connection)
      requires Valid() && Known(c)
      ensures c.id in View().conns && View().conns[c.id].deviceId == c.deviceId
      ensures View().conns[c.id].version == c.version
      ensures View().conns[c.id].challenge == c.challenge
    {}

    method AcknowledgeLeds(c: Connection, version: nat, nonce: Bytes, env: Environment)
      requires Valid() && Known(c)
      modifies known.Values
      ensures Valid() && View() == Sessions.AcknowledgeLeds(old(View()), c.id, version, nonce, env)
    {
      hide Sessions.Broadcast, HasId;
      ghost var s := View();
      Here(c);
      var matches := HasId(c.View()) && c.pending.Some? && c.pending.value.nonce == nonce;
      var entry := Received(version, LedApplied(nonce), env.at, matches);
      ghost var logged := With(c.View(), entry);
      c.Record(entry);
      if matches {
        c.applied := Some(c.pending.value.leds);
        c.pending := None;
        Changed(c);
        PutTwice(s, c.id, logged, c.View());
        Broadcast(LedState(Str(c.deviceId), c.applied));
      } else {
        Changed(c);
      }
    }

    method Report(c: Connection, version: nat, nonce: Bytes, digest: Bytes, env: Environment)
      requires Valid() && Known(c)
      modifies known.Values
      ensures Valid() && View() == Sessions.Report(old(View()), c.id, version, nonce, digest, env)
    {
      hide Sessions.Broadcast, HasId, Credentials.ToHex;
      ghost var s := View();
      Here(c);
      var matches := HasId(c.View()) && c.query == Some(nonce);
      var entry := Received(version, ConfigurationReport(nonce, digest), env.at, matches);
      ghost var logged := With(c.View(), entry);
      c.Record(entry);
      if matches {
        c.query := None;
        c.verified := Some(Verified(Credentials.ToHex(digest), env.at));
        Changed(c);
        PutTwice(s, c.id, logged, c.View());
        Broadcast(ConfigurationState(Str(c.deviceId), c.verified.value));
      } else {
        Changed(c);
        Close(c);
      }
    }

    /** The message handler of a keypad connection. */
    method OnFrame(c: Connection, binary: bool, data: Bytes, env: Environment, hmac: Hmac)
      requires Valid() && Known(c)
      modifies this`connections, this`store, known.Values
      ensures Valid() && View() == Sessions.Frame(old(View()), c.id, binary, data, env, hmac)
    {
      hide Delivered, Sessions.Authenticate, Sessions.RegisterKeypad, Sessions.AcknowledgeLeds, Sessions.Report,
           Sessions.Broadcast, Connection.View, Terminate;
      IdHere(c);
      DeviceHere(c);
      AuthenticatedHere(c);
      if !binary || |data| == 0 || |data| > MAX_DEVICE_FRAME_SIZE {
        Close(c);
        return;
      }
      var decoded := FrameCursor.DecodeDeviceFrame(data);
      if decoded.None? {
        Close(c);
        return;
      }
      var (version, message) := decoded.value;
      if !c.authenticated {
        match message {
          case AuthResponse(id, mac) => Authenticate(c, version, id, mac, env, hmac);
          case _ => Close(c);
        }
        return;
      }
      if version != c.version {
        Close(c);
        return;
      }
      match message {
        case Registration(firmware, hardware) => RegisterKeypad(c, version, firmware, hardware, env);
        case LedApplied(nonce) => AcknowledgeLeds(c, version, nonce, env);
        case ConfigurationReport(nonce, digest) => Report(c, version, nonce, digest, env);
        case KeyEvent(key, state) =>
          Here(c);
          var id := c.deviceId;
          c.Record(Received(version, message, env.at, true));
          Changed(c);
          Broadcast(Pressed(Str(id), key, state));
        case AuthResponse(_, _) => Close(c);
      }
    }

    lemma AuthenticatedHere(c: Connection)
      requires Valid() && Known(c)
      ensures c.id in View().conns && View().conns[c.id].authenticated == c.authenticated
    {}

    // ---- Events ----

    method Open(id: ConnId, keypad: bool) returns (c: Connection)
      requires Valid() && id !in known
      modifies this`known
      ensures Valid() && Known(c) && fresh(c) && c.View() == NewConn(keypad) && known == old(known)[id := c]
      ensures c.id == id
      ensures View() == Put(old(View()), id, NewConn(keypad)) && id !in old(View()).conns
    {
      c := new Connection(id, keypad);
      known := known[id := c];
      assert View().conns == old(View()).conns[id := c.View()];
    }

    method OnBrowser(id: ConnId, ghost hmac: Hmac) returns (c: Connection)
      requires Valid() && id !in known
      modifies this`known, this`connections
      ensures Valid() && Known(c) && fresh(c) && View() == Step(old(View()), OpenBrowser(id), hmac)
    {
      hide Connection.View, Add;
      c := Open(id, false);
      AddConnection(c);
    }

    method OnKeypad(id: ConnId, nonce: Bytes, ghost hmac: Hmac) returns (c: Connection)
      requires Valid() && id !in known
      modifies this`known
      ensures Valid() && Known(c) && fresh(c) && View() == Step(old(View()), OpenKeypad(id, nonce), hmac)
    {
      hide Connection.View, With;
      ghost var s := View();
      c := Open(id, true);
      label Opened:
      c.SetChallenge(nonce);
      Changed@Opened(c);
      PutTwice(s, id, NewConn(true), c.View());
      ghost var waiting := c.View();
      label Waiting:
      c.Record(Sent(AuthChallenge(nonce)));
      Changed@Waiting(c);
      PutTwice(s, id, waiting, c.View());
    }

    /** A browser's message, already parsed. */
    method OnBrowserRegistration(c: Connection, r: Reg, ghost hmac: Hmac)
      requires Valid() && Known(c)
      modifies this`connections, known.Values
      ensures Valid() && View() == Step(old(View()), BrowserRegistration(c.id, r), hmac)
    {
      hide Connection.View, Sessions.Register;
      IdHere(c);
      if c.open && !c.keypad {
        HandleRegistration(c, r);
      }
    }

    method OnBrowserConfiguration(c: Connection, id: Value, leds: Option<Leds>, nonces: seq<Bytes>, ghost hmac: Hmac)
      requires Valid() && Known(c)
      modifies known.Values
      ensures Valid() && View() == Step(old(View()), BrowserConfiguration(c.id, id, leds, nonces), hmac)
    {
      hide Connection.View, Configure, Controllers;
      IdHere(c);
      if c.open && !c.keypad {
        HandleConfiguration(id, leds, nonces);
      }
    }

    method OnBrowserKey(c: Connection, id: Value, text: Bytes, ghost hmac: Hmac)
      requires Valid() && Known(c)
      modifies known.Values
      ensures Valid() && View() == Step(old(View()), BrowserKey(c.id, id, text), hmac)
    {
      hide Connection.View, Sessions.Broadcast;
      IdHere(c);
      if c.open && !c.keypad {
        Broadcast(Key(id, text));
      }
    }

    method OnPlayerLogin(text: Bytes, ghost hmac: Hmac)
      requires Valid()
      modifies known.Values
      ensures Valid() && View() == Step(old(View()), PlayerLogin(text), hmac)
    {
      hide Sessions.Broadcast;
      Broadcast(Login(text));
    }

    method OnKeypadFrame(c: Connection, binary: bool, data: Bytes, env: Environment, hmac: Hmac)
      requires Valid() && Known(c)
      modifies this`connections, this`store, known.Values
      ensures Valid() && View() == Step(old(View()), KeypadFrame(c.id, binary, data, env), hmac)
    {
      hide Connection.View, Sessions.Frame;
      IdHere(c);
      if c.open && c.keypad {
        OnFrame(c, binary, data, env, hmac);
      }
    }

    method OnOffer(c: Connection, offer: Offered, ghost hmac: Hmac)
      requires Valid() && Known(c)
      modifies c
      ensures Valid() && View() == Step(old(View()), Event.Offer(c.id, offer), hmac)
    {
      hide Sessions.SendOffer, OrNull;
      Here(c);
      if c.open && c.keypad && c.authenticated && OrNull(c.firmware).Some? && OrNull(c.hardware).Some? {
        SendOffer(c, Some(offer));
      }
    }

    method OnHealthCheck(c: Connection, ghost hmac: Hmac)
      requires Valid() && Known(c)
      modifies c
      ensures Valid() && View() == Step(old(View()), HealthCheck(c.id), hmac)
    {
      hide Connection.View, Terminate;
      Named(c, connections);
      if c in connections {
        Close(c);
      }
    }

    method OnClose(c: Connection, ghost hmac: Hmac)
      requires Valid() && Known(c)
      modifies this`connections, known.Values
      ensures Valid() && View() == Step(old(View()), Closed(c.id), hmac)
    {
      hide Connection.View, Terminate, Remove;
      Here(c);
      Close(c);
      RemoveConnection(c);
    }

    method OnReload(devices: Credentials.Devices, ghost hmac: Hmac)
      requires Valid()
      modifies this`store
      ensures Valid() && View() == Step(old(View()), Reloaded(devices), hmac)
    {
      store := devices;
    }

    lemma HeldHere(id: Value)
      requires Valid()
      ensures (exists k :: k in connections && k.receiver.False? && k.controllerId == id) <==> Held(View(), id)
    {
      forall k | k in connections
        ensures k.id in View().live && k.id in View().conns && View().conns[k.id] == k.View()
      {
        assert Known(k);
        var i :| 0 <= i < |connections| && connections[i] == k;
        assert Ids(connections)[i] == k.id;
      }
      forall c | c in View().live ensures exists k :: k in connections && k.id == c {
        var i :| 0 <= i < |connections| && Ids(connections)[i] == c;
        assert connections[i] in connections && connections[i].id == c;
      }
    }
  }

  predicate Once(connections: seq<Connection>) {
    forall i, j :: 0 <= i < j < |connections| ==> connections[i] != connections[j]
  }

  lemma SelectNext(s: State, ids: seq<ConnId>, i: nat, flag: Flag)
    requires i < |ids|
    ensures Sessions.Select(s, ids[..i + 1], flag) ==
            Sessions.Select(s, ids[..i], flag) + if HasFlag(s, ids[i], flag) then [ids[i]] else []
  {
    assert ids[..i + 1][..i] == ids[..i];
  }

  lemma LogNobody(s: State, e: Entry)
    ensures LogEach(s, [], e) == s
  {}

  lemma LogNext(s: State, ids: seq<ConnId>, k: ConnId, e: Entry)
    requires k !in ids && k in s.conns
    ensures Log(LogEach(s, ids, e), k, e) == LogEach(s, ids + [k], e)
  {
    hide With;
  }

  lemma DropNext(ids: seq<ConnId>, i: nat, c: ConnId)
    requires i < |ids|
    ensures Without(ids[..i + 1], c) == Without(ids[..i], c) + if ids[i] != c then [ids[i]] else []
  {
    assert ids[..i + 1][..i] == ids[..i];
  }

  /** Connection `c` has been told `notes`. */
  function Listing(s: State, c: ConnId, conn: Conn, notes: seq<Entry>): State {
    Put(s, c, conn.(trace := conn.trace + notes))
  }

  lemma ListedNone(s: State, c: ConnId, conn: Conn)
    ensures Listing(s, c, conn, []) == Put(s, c, conn)
  {
    assert conn.trace + [] == conn.trace;
  }

  lemma ListedAll(s: State, c: ConnId, conn: Conn, notes: seq<Entry>)
    ensures Listing(s, c, conn, notes) == Put(s, c, conn.(trace := conn.trace + notes))
  {}

  lemma ListedNext(s: State, c: ConnId, conn: Conn, notes: seq<Entry>, e: Entry)
    requires c in s.conns
    ensures Log(Listing(s, c, conn, notes), c, e) == Listing(s, c, conn, notes + [e])
  {
    assert conn.trace + notes + [e] == conn.trace + (notes + [e]);
    var a, b := conn.(trace := conn.trace + notes), conn.(trace := conn.trace + (notes + [e]));
    assert s.conns[c := a][c := b] == s.conns[c := b];
  }

  lemma SnapshotNext(s: State, ids: seq<ConnId>, i: nat)
    requires i < |ids| && ids[i] in s.conns
    ensures Snapshot(s, ids[..i + 1]) == Snapshot(s, ids[..i]) + [Told(PresenceOf(s.conns[ids[i]], Connected))]
  {
    assert ids[..i + 1][..i] == ids[..i];
  }

  lemma CandidatesNext(s: State, c: ConnId, ids: seq<ConnId>, i: nat)
    requires i < |ids|
    ensures Candidates(s, c, ids[..i + 1]) == Candidates(s, c, ids[..i]) + if Replaced(s, c, ids[i]) then [ids[i]]
            else []
  {
    assert ids[..i + 1][..i] == ids[..i];
  }

  lemma RetireNone(s: State)
    ensures Sessions.Retire(s, []) == s
  {}

  lemma RetireNext(s: State, ids: seq<ConnId>, i: nat)
    requires i < |ids|
    ensures Sessions.Retire(s, ids[..i + 1]) == Terminate(Remove(Sessions.Retire(s, ids[..i]), ids[i]), ids[i])
  {
    assert ids[..i + 1][..i] == ids[..i];
  }

  lemma PutLoaded(s: State, c: ConnId, a: Conn, b: Conn, store: Credentials.Devices)
    ensures Put(Put(s, c, a).(store := store), c, b) == Put(s.(store := store), c, b)
  {
    PutTwice(s, c, a, b);
  }

  /** The answer to a proof, once the credentials are loaded and the version is noted. */
  function Judged(s: State, c: ConnId, version: nat, id: Bytes, mac: Bytes, at: int, hmac: Hmac): State
    requires c in s.conns && s.conns[c].challenge.Some?
  {
    var conn := s.conns[c];
    if id !in s.store || mac != Proof(hmac, s.store[id].secret, id, conn.challenge.value) then
      Put(s, c, With(conn, Sent(AuthResult(version, 1, []))).(challenge := None, open := false))
    else
      var accepted := With(conn, Received(version, AuthResponse(id, mac), at, true))
        .(challenge := None, authenticated := true, deviceId := id, device := Some(s.store[id]));
      Log(Add(Put(s, c, accepted), c), c, Sent(AuthResult(version, 0, id)))
  }

  lemma JudgedPut(
      s: State, c: ConnId, conn: Conn, store: Credentials.Devices, version: nat, id: Bytes, mac: Bytes, at: int,
      hmac: Hmac)
    requires c in s.conns && conn.challenge.Some?
    ensures var t := Put(s, c, conn).(store := store);
            var u := s.(store := store);
            Judged(t, c, version, id, mac, at, hmac) ==
            if id !in store || mac != Proof(hmac, store[id].secret, id, conn.challenge.value) then
              Put(u, c, With(conn, Sent(AuthResult(version, 1, []))).(challenge := None, open := false))
            else
              Log(Add(Put(u, c, With(conn, Received(version, AuthResponse(id, mac), at, true))
                .(challenge := None, authenticated := true, deviceId := id, device := Some(store[id]))), c), c,
                    Sent(AuthResult(version, 0, id)))
  {
    hide Proof, With, Add, Log;
    if id !in store || mac != Proof(hmac, store[id].secret, id, conn.challenge.value) {
      PutLoaded(s, c, conn, With(conn, Sent(AuthResult(version, 1, []))).(challenge := None, open := false), store);
    } else {
      PutLoaded(s, c, conn, With(conn, Received(version, AuthResponse(id, mac), at, true))
        .(challenge := None, authenticated := true, deviceId := id, device := Some(store[id])), store);
    }
  }

  lemma AuthenticateJudges(s: State, c: ConnId, version: nat, id: Bytes, mac: Bytes, env: Environment, hmac: Hmac)
    requires c in s.conns && env.loaded.Some? && s.conns[c].challenge.Some?
    ensures Sessions.Authenticate(s, c, version, id, mac, env, hmac) ==
            Judged(Put(s, c, s.conns[c].(version := version)).(store := env.loaded.value), c, version, id, mac, env.at,
                hmac)
  {
    hide Proof, With, Add, Log, Judged;
    JudgedPut(s, c, s.conns[c].(version := version), env.loaded.value, version, id, mac, env.at, hmac);
  }

  lemma ClosedTwice(s: State, c: ConnId, conn: Conn)
    ensures Terminate(Put(s, c, conn), c) == Put(s, c, conn.(open := false))
  {
    PutTwice(s, c, conn, conn.(open := false));
  }

  lemma NamedNext(s: State, ids: seq<ConnId>, i: nat, id: Value)
    requires i < |ids|
    ensures Sessions.Named(s, ids[..i + 1], id) ==
            Sessions.Named(s, ids[..i], id) + if ids[i] in s.conns && s.conns[ids[i]].controllerId == id then [ids[i]]
                else []
  {
    assert ids[..i + 1][..i] == ids[..i];
  }

  lemma ConfigureNone(s: State, leds: Option<Leds>, nonces: seq<Bytes>)
    ensures Configure(s, [], leds, nonces) == s
  {}

  lemma ConfigureNext(s: State, targets: seq<ConnId>, leds: Option<Leds>, nonces: seq<Bytes>)
    requires targets != [] && targets[0] in s.conns
    ensures var k, conn := targets[0], s.conns[targets[0]];
            Configure(s, targets, leds, nonces) ==
            if conn.keypad && conn.version == CONFIGURATION_VERSION then
              if !Sendable(leds) || nonces == [] then s
              else Configure(Sessions.Command(s, k, leds.value, nonces[0]), targets[1..], leds, nonces[1..])
            else if conn.keypad then
              if !Sendable(leds) || !KnownVersion(conn.version) then s
              else Configure(Log(s, k, Sent(Configuration(conn.version, leds.value))), targets[1..], leds, nonces)
            else Configure(Log(s, k, Told(Forwarded(conn.controllerId, leds))), targets[1..], leds, nonces)
  {}

  /** The registration that the removal of a last controller dispatches changes nothing but what receivers hear. */
  lemma LeavingIsRegistering(t: State, c: ConnId)
    requires c in t.conns && t.conns[c].receiver.False?
    ensures var conn := t.conns[c];
            Sessions.Register(t, c, Reg(conn.receiver, conn.controllerId, Disconnected, None, None)) ==
            if conn.authenticated && conn.controllerId != Str(conn.deviceId) then Put(t, c, conn.(open := false))
            else Sessions.Broadcast(t, PresenceOf(conn, Disconnected))
  {
    hide Sessions.Broadcast;
    assert Put(t, c, t.conns[c]) == t by { assert t.conns[c := t.conns[c]] == t.conns; }
  }
}
