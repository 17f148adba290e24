/** Where the record of a keypad connection comes from: frames that arrived on it, and the credentials loaded then. */
module SessionOrigins {
  import opened Prelude
  import Credentials
  import opened DeviceAuth
  import opened Protocol
  import opened ServerFrames
  import opened Sessions
  import opened SessionRegistry
  import opened SessionMoves
  import opened SessionRecords
  import opened SessionRuns

  /** The entry records this arrival. */
  predicate Records(a: Option<Arrival>, k: ConnId, e: Entry) {
    && a.Some? && a.value.Arrival? && a.value.c == k
    && e.Received? && (e.version, e.message, e.at) == (a.value.version, a.value.message, a.value.at)
  }

  /**
   * The arrival is the connection's recorded answer to its challenge, and the credentials loaded at that moment hold
   * the connection's id with the device that the connection carries.
   */
  predicate Admits(a: Option<Arrival>, k: ConnId, conn: Conn) {
    && |conn.trace| > 1 && Records(a, k, conn.trace[1])
    && a.value.message.AuthResponse? && a.value.message.deviceId == conn.deviceId
    && a.value.loaded.Some? && conn.deviceId in a.value.loaded.value
    && conn.device == Some(a.value.loaded.value[conn.deviceId])
  }

  // ---- One step ----

  /** The connection is still the same device, or has just been admitted. */
  predicate Continues(before: Conn, after: Conn, k: ConnId, a: Option<Arrival>) {
    after.authenticated ==>
      || (before.authenticated && after.deviceId == before.deviceId && after.device == before.device)
      || Admits(a, k, after)
  }

  /** Only new firmware and registrations are answered with an offer. */
  predicate Prompts(a: Option<Arrival>, k: ConnId) {
    a.Some? && a.value.c == k && (a.value.Offering? || a.value.message.Registration?)
  }

  /** The entry records what arrived, or is a frame that may be sent then. */
  predicate Brings(a: Option<Arrival>, k: ConnId, e: Entry) {
    (e.Received? ==> Records(a, k, e)) && (IsOffer(e) ==> Prompts(a, k))
  }

  /** The record only grows, by what arrived and by frames of the server. */
  predicate Follows(before: Conn, after: Conn, k: ConnId, a: Option<Arrival>) {
    && before.trace <= after.trace
    && (forall j :: |before.trace| <= j < |after.trace| ==> Brings(a, k, after.trace[j]))
    && Continues(before, after, k, a)
    && (before.authenticated ==> after.authenticated && |before.trace| > 1)
  }

  lemma FollowsStill(conn: Conn, k: ConnId, a: Option<Arrival>, hmac: Hmac)
    requires IdentityOk(conn, hmac)
    ensures Follows(conn, conn, k, a)
  {
    hide Proof;
  }

  /** After the first entry of a frame, only frames of the server follow. */
  lemma EnrolEntries(conn: Conn, m: Move)
    requires m.Enrol?
    ensures var r := Apply(conn, m);
            && conn.trace + [Received(m.version, Registration(m.firmware, m.hardware), m.at, true)] <= r.trace
            && (forall j :: |conn.trace| < j < |r.trace| ==> r.trace[j].Sent?)
            && r.authenticated == conn.authenticated && r.deviceId == conn.deviceId && r.device == conn.device
  {
    hide Encodable;
    var a := Enrolled(conn, m.version, m.firmware, m.hardware, m.at);
    var b := Accepting(a, m.firmware, m.accepted);
    var c := Asking(b, m.nonce);
    assert a.trace == conn.trace + [Received(m.version, Registration(m.firmware, m.hardware), m.at, true)];
    assert forall j :: |a.trace| <= j < |b.trace| ==> b.trace[j].Sent?;
    assert forall j :: |b.trace| <= j < |c.trace| ==> c.trace[j].Sent?;
    assert Apply(conn, m) == Proposing(c, m.offer);
  }

  lemma EntersAdmitted(conn: Conn, k: ConnId, m: Move, hmac: Hmac, a: Option<Arrival>)
    requires IdentityOk(conn, hmac) && Allowed(conn, m, hmac) && Suits(a, k, m) && m.Enter?
    ensures Follows(conn, Apply(conn, m), k, a)
  {
    hide Proof;
  }

  lemma MoveFollows(conn: Conn, k: ConnId, m: Move, hmac: Hmac, a: Option<Arrival>)
    requires IdentityOk(conn, hmac) && Allowed(conn, m, hmac) && Suits(a, k, m)
    ensures Follows(conn, Apply(conn, m), k, a)
  {
    if m.Enter? {
      EntersAdmitted(conn, k, m, hmac, a);
    } else if m.Enrol? {
      hide Apply, Proof;
      EnrolEntries(conn, m);
    } else {
      hide Proof, Encodable, HasId, Credentials.ToHex, Enrolled, Accepting, Asking;
    }
  }

  lemma FollowsThrough(x: Conn, y: Conn, z: Conn, k: ConnId)
    requires Follows(x, y, k, None) && Follows(y, z, k, None)
    ensures Follows(x, z, k, None)
  {}

  ghost predicate AllFollow(s: State, t: State, a: Option<Arrival>) {
    forall k :: k in s.conns && s.conns[k].keypad ==>
      k in t.conns && t.conns[k].keypad && Follows(s.conns[k], t.conns[k], k, a)
  }

  lemma MovedFollow(s: State, t: State, hmac: Hmac, a: Option<Arrival>)
    requires Inv(s, hmac) && Moved(s, t, hmac, a)
    ensures AllFollow(s, t, a)
  {
    hide Ok, LedsOk, ProofOk, IdentityOk, Allowed, Suits, Apply, Follows;
    forall k | k in s.conns && s.conns[k].keypad
      ensures k in t.conns && t.conns[k].keypad && Follows(s.conns[k], t.conns[k], k, a)
    {
      var m :| AllowedIn(s, k, m, hmac, a) && t.conns[k] == Apply(s.conns[k], m);
      assert RecordOk(s.conns[k], hmac);
      MoveFollows(s.conns[k], k, m, hmac, a);
      ApplyKind(s.conns[k], m);
    }
  }

  lemma AllFollowThrough(s: State, t: State, u: State)
    requires AllFollow(s, t, None) && AllFollow(t, u, None)
    ensures AllFollow(s, u, None)
  {
    hide Follows;
    forall k | k in s.conns && s.conns[k].keypad ensures Follows(s.conns[k], u.conns[k], k, None) {
      FollowsThrough(s.conns[k], t.conns[k], u.conns[k], k);
    }
  }

  lemma AllFollowStill(s: State, hmac: Hmac, a: Option<Arrival>)
    requires Inv(s, hmac)
    ensures AllFollow(s, s, a)
  {
    hide Ok, LedsOk, ProofOk, IdentityOk, Follows;
    forall k | k in s.conns && s.conns[k].keypad ensures Follows(s.conns[k], s.conns[k], k, a) {
      assert RecordOk(s.conns[k], hmac);
      FollowsStill(s.conns[k], k, a, hmac);
    }
  }

  /** What is sent to a connection in passing is no frame that arrived. */
  lemma LogFollows(s: State, k: ConnId, e: Entry, hmac: Hmac)
    requires Inv(s, hmac) && !e.Received? && !IsOffer(e)
    ensures AllFollow(s, Log(s, k, e), None)
  {
    hide Ok, LedsOk, ProofOk;
    forall j | j in s.conns && s.conns[j].keypad ensures Follows(s.conns[j], Log(s, k, e).conns[j], j, None) {
      assert RecordOk(s.conns[j], hmac);
      FollowsStill(s.conns[j], j, None, hmac);
    }
  }

  lemma {:induction false} ConfigureFollows(
      s: State, targets: seq<ConnId>, leds: Option<Leds>, nonces: seq<Bytes>, hmac: Hmac)
    requires Inv(s, hmac) && Targets(s, targets)
    ensures AllFollow(s, Configure(s, targets, leds, nonces), None)
    decreases |targets|
  {
    AllFollowStill(s, hmac, None);
    if targets != [] && targets[0] in s.conns {
      var k, conn := targets[0], s.conns[targets[0]];
      assert RolesOk(conn) && HasFlag(s, k, False);
      hide AllFollow, RecordOk, Minor, Targets, Command, Channels, KnownVersion, Log, Base, Unique, Moved;
      var t, rest := s, nonces;
      if conn.keypad && conn.version == CONFIGURATION_VERSION {
        if Sendable(leds) && nonces != [] {
          t, rest := Command(s, k, leds.value, nonces[0]), nonces[1..];
          CommandInv(s, k, leds.value, nonces[0], hmac);
          CommandMoves(s, k, leds.value, nonces[0], hmac);
          MovedFollow(s, t, hmac, None);
        }
      } else if conn.keypad {
        if Sendable(leds) && KnownVersion(conn.version) {
          t := Log(s, k, Sent(Configuration(conn.version, leds.value)));
          LogOldMoves(s, k, leds.value, hmac);
          LogMinor(s, k, Sent(Configuration(conn.version, leds.value)));
          LogFollows(s, k, Sent(Configuration(conn.version, leds.value)), hmac);
        }
      } else {
        t := Log(s, k, Told(Forwarded(conn.controllerId, leds)));
        LogBrowser(s, k, Told(Forwarded(conn.controllerId, leds)), hmac);
        LogMinor(s, k, Told(Forwarded(conn.controllerId, leds)));
        LogFollows(s, k, Told(Forwarded(conn.controllerId, leds)), hmac);
      }
      if Configure(s, targets, leds, nonces) != s {
        TargetsStay(s, t, targets);
        ConfigureFollows(t, targets[1..], leds, rest, hmac);
        AllFollowThrough(s, t, Configure(t, targets[1..], leds, rest));
      }
    }
  }

  lemma OpensFollow(s: State, c: ConnId, nonce: Bytes, hmac: Hmac, a: Option<Arrival>)
    requires Inv(s, hmac) && c !in s.conns
    ensures AllFollow(s, Add(Put(s, c, NewConn(false)), c), a)
    ensures AllFollow(s, Put(s, c, With(NewConn(true).(challenge := Some(nonce)), Sent(AuthChallenge(nonce)))), a)
  {
    hide Inv, Follows;
    AllFollowStill(s, hmac, a);
  }

  /** Every event adds to the records of the keypads only what it brought them. */
  lemma StepFollows(s: State, e: Event, hmac: Hmac)
    requires Inv(s, hmac)
    ensures AllFollow(s, Step(s, e, hmac), Arriving(e))
  {
    hide RecordOk, Configure, Register, Frame, Remove, Broadcast, SendOffer, Terminate, Add, Put, With, NewConn, Moved,
         SameKinds, AllFollow, Ok;
    if e.OpenBrowser? || e.OpenKeypad? {
      AllFollowStill(s, hmac, Arriving(e));
      if e.c !in s.conns { OpensFollow(s, e.c, if e.OpenKeypad? then e.nonce else [], hmac, Arriving(e)); }
    } else if e.BrowserConfiguration? {
      AllFollowStill(s, hmac, Arriving(e));
      ConfigureFollows(s, Named(s, Controllers(s), e.id), e.leds, e.nonces, hmac);
    } else {
      StepGoes(s, e, hmac);
      MovedFollow(s, Step(s, e, hmac), hmac, Arriving(e));
    }
  }

  // ---- Every run ----

  /** Every frame on record arrived on this connection in this run, in this version and at this time. */
  ghost predicate Genuine(events: seq<Event>, k: ConnId, trace: seq<Entry>) {
    forall j :: 0 <= j < |trace| && trace[j].Received? ==> Arrived(events, k, trace[j])
  }

  ghost predicate Arrived(events: seq<Event>, k: ConnId, e: Entry) {
    exists i :: 0 <= i < |events| && Records(Arriving(events[i]), k, e)
  }

  /**
   * The answer to the challenge arrived in this run, and the credentials loaded at that moment hold the connection's
   * id with the device it carries.
   */
  ghost predicate Admitted(events: seq<Event>, k: ConnId, conn: Conn) {
    exists i :: 0 <= i < |events| && Admits(Arriving(events[i]), k, conn)
  }

  ghost predicate Founded(events: seq<Event>, k: ConnId, conn: Conn) {
    Genuine(events, k, conn.trace) && (conn.authenticated ==> Admitted(events, k, conn))
  }

  ghost predicate AllFounded(events: seq<Event>, s: State) {
    forall k :: k in s.conns && s.conns[k].keypad ==> Founded(events, k, s.conns[k])
  }

  lemma FollowedFounded(events: seq<Event>, e: Event, k: ConnId, before: Conn, after: Conn)
    requires Founded(events, k, before) && Follows(before, after, k, Arriving(e))
    ensures Founded(events + [e], k, after)
  {
    hide Arriving;
    var more := events + [e];
    assert more[|events|] == e && forall i :: 0 <= i < |events| ==> more[i] == events[i];
    forall j | 0 <= j < |after.trace| && after.trace[j].Received? ensures Arrived(more, k, after.trace[j]) {
      if j < |before.trace| {
        assert after.trace[j] == before.trace[j];
        var i :| 0 <= i < |events| && Records(Arriving(events[i]), k, before.trace[j]);
        assert Records(Arriving(more[i]), k, after.trace[j]);
      } else {
        assert Records(Arriving(more[|events|]), k, after.trace[j]);
      }
    }
    if after.authenticated {
      if Admits(Arriving(e), k, after) {
        assert Admits(Arriving(more[|events|]), k, after);
      } else {
        var i :| 0 <= i < |events| && Admits(Arriving(events[i]), k, before);
        assert Admits(Arriving(more[i]), k, after);
      }
    }
  }

  lemma OpenedFounded(s: State, e: Event, hmac: Hmac, events: seq<Event>, k: ConnId)
    requires e.OpenKeypad? || e.OpenBrowser?
    requires k in Step(s, e, hmac).conns && Step(s, e, hmac).conns[k].keypad && k !in s.conns
    ensures Founded(events, k, Step(s, e, hmac).conns[k])
  {}

  /** Only openings add connections. */
  lemma StepKeys(s: State, e: Event, hmac: Hmac)
    requires Inv(s, hmac) && !e.OpenKeypad? && !e.OpenBrowser?
    ensures SameKinds(s, Step(s, e, hmac))
  {
    hide RecordOk, Configure, Register, Frame, Remove, Broadcast, SendOffer, Terminate, Moved, Ok;
    if e.BrowserConfiguration? {
      ConfigureInv(s, Named(s, Controllers(s), e.id), e.leds, e.nonces, hmac);
    } else {
      StepGoes(s, e, hmac);
    }
  }

  lemma FoundedStep(events: seq<Event>, s: State, e: Event, hmac: Hmac)
    requires Inv(s, hmac) && AllFounded(events, s)
    ensures AllFounded(events + [e], Step(s, e, hmac))
  {
    hide Inv, Step, Founded, Follows, Arriving;
    var t := Step(s, e, hmac);
    StepFollows(s, e, hmac);
    forall k | k in t.conns && t.conns[k].keypad ensures Founded(events + [e], k, t.conns[k]) {
      if !e.OpenKeypad? && !e.OpenBrowser? {
        StepKeys(s, e, hmac);
      }
      if k in s.conns {
        assert s.conns[k].keypad by { StepKind(s, e, hmac, k); }
        FollowedFounded(events, e, k, s.conns[k], t.conns[k]);
      } else {
        OpenedFounded(s, e, hmac, events + [e], k);
      }
    }
  }

  lemma StepKind(s: State, e: Event, hmac: Hmac, k: ConnId)
    requires Inv(s, hmac) && k in s.conns && k in Step(s, e, hmac).conns
    ensures Step(s, e, hmac).conns[k].keypad == s.conns[k].keypad
  {
    if e.OpenKeypad? || e.OpenBrowser? {
      hide Inv;
    } else {
      hide Inv, Step;
      StepKeys(s, e, hmac);
    }
  }

  lemma {:induction false} FoundedRun(past: seq<Event>, s: State, events: seq<Event>, hmac: Hmac)
    requires Inv(s, hmac) && AllFounded(past, s)
    ensures AllFounded(past + events, Run(s, events, hmac)) && Inv(Run(s, events, hmac), hmac)
    decreases |events|
  {
    hide Inv, AllFounded, Step;
    if events == [] {
      assert past + events == past;
    } else {
      InvStep(s, events[0], hmac);
      FoundedStep(past, s, events[0], hmac);
      FoundedRun(past + [events[0]], Step(s, events[0], hmac), events[1..], hmac);
      assert past + [events[0]] + events[1..] == past + events;
    }
  }

  /**
   * On every run, an authenticated connection answered its own challenge with the secret that the credentials, as
   * loaded when the answer arrived, hold for its id; it has no id but that one; and every frame it was heeded for since
   * arrived on it, in the version of that answer, in which it was also spoken to.
   */
  lemma IdentityOnEveryRun(events: seq<Event>, hmac: Hmac, k: ConnId)
    requires k in Run(START, events, hmac).conns && Run(START, events, hmac).conns[k].authenticated
    ensures var conn := Run(START, events, hmac).conns[k];
            && conn.keypad && Proved(conn, hmac)
            && Admitted(events, k, conn) && Genuine(events, k, conn.trace)
            && (conn.controllerId.Null? || conn.controllerId == Str(conn.deviceId))
  {
    hide Run, LedsOk, ProofOk, Proved, Genuine, Admitted;
    assert Inv(START, hmac) && AllFounded([], START);
    FoundedRun([], START, events, hmac);
    assert [] + events == events;
    assert RolesOk(Run(START, events, hmac).conns[k]);
    assert Founded(events, k, Run(START, events, hmac).conns[k]);
  }
}
