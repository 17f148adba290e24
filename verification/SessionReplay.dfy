/** Old answers prove nothing: superseded and replayed acknowledgements and reports, and the order of offers. */
module SessionReplay {
  import opened Prelude
  import Credentials
  import opened DeviceAuth
  import opened Protocol
  import opened ServerFrames
  import opened Sessions
  import opened SessionRegistry
  import opened SessionMoves
  import opened SessionRecords
  import opened SessionRuns
  import opened SessionOrigins

  /** The random nonces of a connection's commands do not repeat. */
  predicate CommandsDiffer(trace: seq<Entry>) {
    forall i, j | 0 <= i < |trace| && 0 <= j < |trace| && IsCommand(trace[i]) && IsCommand(trace[j])
      :: trace[i].frame.nonce == trace[j].frame.nonce ==> i == j
  }

  predicate IsCommand(e: Entry) {
    e.Sent? && e.frame.LedCommand?
  }

  predicate QueriesDiffer(trace: seq<Entry>) {
    forall i, j | 0 <= i < |trace| && 0 <= j < |trace| && IsQuery(trace[i]) && IsQuery(trace[j])
      :: trace[i].frame.nonce == trace[j].frame.nonce ==> i == j
  }

  predicate IsQuery(e: Entry) {
    e.Sent? && e.frame.ConfigurationQuery?
  }

  /** A later command or registration came between. */
  predicate Superseded(trace: seq<Entry>, i: nat) {
    exists m :: i < m < |trace| && LedTurn(trace[m])
  }

  /** Entry `i` has been acknowledged before. */
  ghost predicate Acknowledged(trace: seq<Entry>, i: int, p: Pending) {
    exists j :: Confirmed(trace, i, j, p)
  }

  /** An acknowledgement of a superseded or already acknowledged command changes no state and tells no one. */
  lemma OldAcknowledgement(
      s: State, c: ConnId, version: nat, i: int, p: Pending, env: Environment, hmac: Hmac)
    requires Inv(s, hmac) && c in s.conns && s.conns[c].keypad && CommandsDiffer(s.conns[c].trace)
    requires 0 <= i < |s.conns[c].trace| && s.conns[c].trace[i] == Sent(LedCommand(p.nonce, p.leds))
    requires Superseded(s.conns[c].trace, i) || Acknowledged(s.conns[c].trace, i, p)
    ensures AcknowledgeLeds(s, c, version, p.nonce, env) ==
            Put(s, c, With(s.conns[c], Received(version, LedApplied(p.nonce), env.at, false)))
  {
    hide Ok, IdentityOk, ProofOk, Broadcast, HasId;
    assert LedsOk(s.conns[c]) && IsCommand(s.conns[c].trace[i]);
  }

  /**
   * A report that answers a query from an earlier epoch is refused: the connection is closed and nothing is recorded.
   */
  lemma OldReport(
      s: State, c: ConnId, version: nat, j: int, nonce: Bytes, digest: Bytes, env: Environment, hmac: Hmac)
    requires Inv(s, hmac) && c in s.conns && s.conns[c].keypad && QueriesDiffer(s.conns[c].trace)
    requires 0 <= j < |s.conns[c].trace| && s.conns[c].trace[j] == Sent(ConfigurationQuery(nonce))
    requires exists m :: j < m < |s.conns[c].trace| && EpochStart(s.conns[c].trace[m])
    ensures var conn := s.conns[c];
            Report(s, c, version, nonce, digest, env) ==
            Put(s, c, With(conn,
                Received(version, ConfigurationReport(nonce, digest), env.at, false)).(open := false))
  {
    hide Ok, IdentityOk, LedsOk, Broadcast, HasId, Credentials.ToHex;
    assert ProofOk(s.conns[c]) && IsQuery(s.conns[c].trace[j]);
    ReportEffect(s, c, version, nonce, digest, env);
  }

  // ---- Acceptance before offers on every run ----

  /** The connections of one device are in order; those not yet authenticated have no firmware. */
  ghost predicate Ordered(s: State, id: Bytes) {
    forall k :: k in s.conns && s.conns[k].keypad ==> InOrder(s.conns[k], id)
  }

  ghost predicate InOrder(conn: Conn, id: Bytes) {
    && (!conn.authenticated ==> conn.firmware.None? && OrderOk(conn))
    && (conn.authenticated && conn.deviceId == id ==> OrderOk(conn))
  }

  lemma InOrderMove(s: State, k: ConnId, m: Move, hmac: Hmac, a: Option<Arrival>, id: Bytes)
    requires k in s.conns && InOrder(s.conns[k], id) && AllowedIn(s, k, m, hmac, a) && Unpinned(s, id)
    ensures InOrder(Apply(s.conns[k], m), id)
  {
    var conn := s.conns[k];
    hide OrderOk, Proof, Encodable, Credentials.ToHex, HasId;
    var r := Apply(conn, m);
    if conn.authenticated && conn.deviceId == id {
      OrderMove(conn, m, hmac);
    } else if !conn.authenticated {
      OrderMove(conn, m, hmac);
      UnauthenticatedMove(conn, m, hmac);
    } else {
      StaysAuthenticated(conn, m, hmac);
    }
  }

  lemma UnauthenticatedMove(conn: Conn, m: Move, hmac: Hmac)
    requires !conn.authenticated && Allowed(conn, m, hmac) && conn.firmware.None?
    ensures Apply(conn, m).firmware.None?
  {
    hide Proof, Encodable, HasId;
  }

  lemma StaysAuthenticated(conn: Conn, m: Move, hmac: Hmac)
    requires conn.authenticated && Allowed(conn, m, hmac)
    ensures Apply(conn, m).authenticated && Apply(conn, m).deviceId == conn.deviceId
  {
    if m.Enrol? {
      hide Encodable;
    } else {
      hide Apply, Proof;
      SteadyMove(conn, m);
    }
  }

  lemma MovedOrdered(s: State, t: State, hmac: Hmac, a: Option<Arrival>, id: Bytes)
    requires Ordered(s, id) && Unpinned(s, id) && Moved(s, t, hmac, a) && SameKinds(s, t)
    ensures Ordered(t, id)
  {
    hide InOrder, AllowedIn, Apply;
    forall k | k in t.conns && t.conns[k].keypad ensures InOrder(t.conns[k], id) {
      var m :| AllowedIn(s, k, m, hmac, a) && t.conns[k] == Apply(s.conns[k], m);
      InOrderMove(s, k, m, hmac, a, id);
    }
  }

  lemma LogOrdered(s: State, k: ConnId, e: Entry, id: Bytes)
    requires Ordered(s, id) && !EpochStart(e) && !IsOffer(e)
    ensures Ordered(Log(s, k, e), id) && Log(s, k, e).store == s.store
  {
    hide OrderOk;
    if k in s.conns && (!s.conns[k].authenticated || s.conns[k].deviceId == id) && s.conns[k].keypad {
      assert InOrder(s.conns[k], id);
      OrderLogged(s.conns[k], e, With(s.conns[k], e));
    }
  }

  lemma {:induction false} ConfigureOrdered(
      s: State, targets: seq<ConnId>, leds: Option<Leds>, nonces: seq<Bytes>, hmac: Hmac, id: Bytes)
    requires Inv(s, hmac) && Ordered(s, id) && Unpinned(s, id) && Targets(s, targets)
    ensures Ordered(Configure(s, targets, leds, nonces), id)
    decreases |targets|
  {
    if targets != [] && targets[0] in s.conns {
      var k, conn := targets[0], s.conns[targets[0]];
      assert RolesOk(conn) && HasFlag(s, k, False);
      hide Ordered, RecordOk, Minor, Targets, Command, Channels, KnownVersion, Log, Base, Unique, Moved;
      var t, rest := s, nonces;
      if conn.keypad && conn.version == CONFIGURATION_VERSION {
        if Sendable(leds) && nonces != [] {
          t, rest := Command(s, k, leds.value, nonces[0]), nonces[1..];
          CommandInv(s, k, leds.value, nonces[0], hmac);
          CommandMoves(s, k, leds.value, nonces[0], hmac);
          CommandStore(s, k, leds.value, nonces[0]);
          MovedOrdered(s, t, hmac, None, id);
        }
      } else if conn.keypad {
        if Sendable(leds) && KnownVersion(conn.version) {
          t := Log(s, k, Sent(Configuration(conn.version, leds.value)));
          LogOldMoves(s, k, leds.value, hmac);
          LogMinor(s, k, Sent(Configuration(conn.version, leds.value)));
          LogOrdered(s, k, Sent(Configuration(conn.version, leds.value)), id);
        }
      } else {
        t := Log(s, k, Told(Forwarded(conn.controllerId, leds)));
        LogBrowser(s, k, Told(Forwarded(conn.controllerId, leds)), hmac);
        LogMinor(s, k, Told(Forwarded(conn.controllerId, leds)));
        LogOrdered(s, k, Told(Forwarded(conn.controllerId, leds)), id);
      }
      if Configure(s, targets, leds, nonces) != s {
        TargetsStay(s, t, targets);
        ConfigureOrdered(t, targets[1..], leds, rest, hmac, id);
      }
    }
  }

  lemma CommandStore(s: State, k: ConnId, leds: Leds, nonce: Bytes)
    requires Base(s) && k in s.conns && s.conns[k].keypad
    ensures Command(s, k, leds, nonce).store == s.store && SameKinds(s, Command(s, k, leds, nonce))
  {
    hide Command, Hears, Apply, Base;
    CommandEffect(s, k, leds, nonce);
    SteadyRole(s.conns[k], Light(nonce, leds));
    forall j | j in s.conns ensures Hears(s, j, LedState(s.conns[k].controllerId, None)).keypad == s.conns[j].keypad {
      HearsKind(s, j, LedState(s.conns[k].controllerId, None));
    }
  }

  lemma OpenedOrdered(s: State, c: ConnId, nonce: Bytes, id: Bytes)
    requires Ordered(s, id) && c !in s.conns
    ensures Ordered(Add(Put(s, c, NewConn(false)), c), id)
    ensures Ordered(Put(s, c, With(NewConn(true).(challenge := Some(nonce)), Sent(AuthChallenge(nonce)))), id)
  {
    hide AcceptedAt;
  }

  lemma OrderedStep(s: State, e: Event, hmac: Hmac, id: Bytes)
    requires Inv(s, hmac) && Ordered(s, id) && Unpinned(s, id)
    ensures Ordered(Step(s, e, hmac), id)
  {
    hide RecordOk, Configure, Register, Frame, Remove, Broadcast, SendOffer, Terminate, Add, Put, With, NewConn, Moved,
         SameKinds, Ok, Ordered, Unpinned;
    if e.OpenBrowser? {
      if e.c !in s.conns { OpenedOrdered(s, e.c, [], id); }
    } else if e.OpenKeypad? {
      if e.c !in s.conns { OpenedOrdered(s, e.c, e.nonce, id); }
    } else if e.BrowserConfiguration? {
      ConfigureOrdered(s, Named(s, Controllers(s), e.id), e.leds, e.nonces, hmac, id);
    } else {
      StepGoes(s, e, hmac);
      MovedOrdered(s, Step(s, e, hmac), hmac, Arriving(e), id);
    }
  }

  ghost predicate UnpinnedRun(s: State, events: seq<Event>, hmac: Hmac, id: Bytes)
    decreases |events|
  {
    Unpinned(s, id) && (events == [] || UnpinnedRun(Step(s, events[0], hmac), events[1..], hmac, id))
  }

  lemma {:induction false} OrderedRun(s: State, events: seq<Event>, hmac: Hmac, id: Bytes)
    requires Inv(s, hmac) && Ordered(s, id) && UnpinnedRun(s, events, hmac, id)
    ensures Ordered(Run(s, events, hmac), id)
    decreases |events|
  {
    hide Inv, Ordered, Step, Unpinned;
    if events != [] {
      InvStep(s, events[0], hmac);
      OrderedStep(s, events[0], hmac, id);
      OrderedRun(Step(s, events[0], hmac), events[1..], hmac, id);
    }
  }

  /**
   * On every run on which the credentials never pin a device, each of its connections sees an update offered only
   * after its current registration was accepted.
   */
  lemma AcceptedBeforeOffered(events: seq<Event>, hmac: Hmac, id: Bytes, k: ConnId)
    requires UnpinnedRun(START, events, hmac, id)
    requires var s := Run(START, events, hmac);
             k in s.conns && s.conns[k].keypad && s.conns[k].authenticated && s.conns[k].deviceId == id
    ensures OffersFollow(Run(START, events, hmac).conns[k].trace)
  {
    hide Run, UnpinnedRun, OffersFollow, RecordOk;
    OrderedRun(START, events, hmac, id);
    assert InOrder(Run(START, events, hmac).conns[k], id);
  }

  // ---- When an offer comes first ----

  /** A registration of this keypad that is let through and answered. */
  predicate LetIn(s: State, e: Event, k: ConnId) {
    && e.KeypadFrame? && e.c == k && Talking(s, k, true) && e.binary && 0 < |e.data| <= MAX_DEVICE_FRAME_SIZE
    && Delivered(e.data).Some? && Delivered(e.data).value.1.Registration?
    && s.conns[k].authenticated && Delivered(e.data).value.0 == s.conns[k].version && s.conns[k].deviceId in s.store
  }

  /** An offer goes to keypad `k` although its registration, the one in force or this one, is not accepted. */
  ghost predicate Premature(s: State, e: Event, k: ConnId) {
    || (LetIn(s, e, k) && !Accepts(s, s.conns[k].deviceId, Delivered(e.data).value.1.firmware, e.env)
        && s.conns[k].open && e.env.offer.Some? && Encodable(OfferFrame(s.conns[k].version, e.env.offer.value)))
    || (e.Offer? && e.c == k && MayOffer(s, k) && Encodable(OfferFrame(s.conns[k].version, e.offer))
        && !Accepted(s.conns[k].trace, |s.conns[k].trace|))
  }

  lemma {:induction false} NothingOffered(before: seq<Entry>, after: seq<Entry>)
    requires before <= after && forall j :: |before| <= j < |after| ==> !IsOffer(after[j])
    ensures OffersFollow(after) <==> OffersFollow(before)
    decreases |after|
  {
    hide OffersFollow, Accepted;
    if before == after {
    } else {
      var front, e := after[..|after| - 1], after[|after| - 1];
      NothingOffered(before, front);
      FollowWith(front, e);
      assert front + [e] == after;
    }
  }

  /** Of the frames that answer a registration only the offer needs the acceptance. */
  lemma EnrolFollows(conn: Conn, m: Move)
    requires m.Enrol? && OffersFollow(conn.trace)
    ensures OffersFollow(Apply(conn, m).trace) <==>
            m.accepted || !conn.open || m.offer.None? || !Encodable(OfferFrame(conn.version, m.offer.value))
  {
    var a := Enrolled(conn, m.version, m.firmware, m.hardware, m.at);
    var b := Accepting(a, m.firmware, m.accepted);
    var c := Asking(b, m.nonce);
    var n, e := |conn.trace|, Received(m.version, Registration(m.firmware, m.hardware), m.at, true);
    assert a.trace == conn.trace + [e] && c.open == conn.open && c.version == conn.version;
    assert a.trace <= c.trace && forall j :: n < j < |c.trace| ==> c.trace[j].Sent? && !IsOffer(c.trace[j]);
    assert c.trace[n] == e && EpochStart(e);
    assert m.accepted ==> |c.trace| > n + 1 && c.trace[n + 1] == Sent(FirmwareAccepted(a.version, m.firmware));
    assert !m.accepted ==> forall j :: n < j < |c.trace| ==> !c.trace[j].frame.FirmwareAccepted?;
    assert Apply(conn, m) == Proposing(c, m.offer);
    NothingOffered(conn.trace, c.trace);
    CurrentAccepted(c.trace, n, m.accepted);
    hide OffersFollow, Accepted, Encodable, Enrolled, Accepting, Asking;
    if c.open && m.offer.Some? && Encodable(OfferFrame(c.version, m.offer.value)) {
      FollowWith(c.trace, Sent(OfferFrame(c.version, m.offer.value)));
    }
  }

  /** The registration in force is accepted exactly if its own acceptance follows it. */
  lemma CurrentAccepted(trace: seq<Entry>, n: nat, accepted: bool)
    requires n < |trace| && EpochStart(trace[n]) && forall j :: n < j < |trace| ==> trace[j].Sent?
    requires if accepted then n + 1 < |trace| && trace[n + 1].frame.FirmwareAccepted?
                 && trace[n + 1].frame.firmware == trace[n].message.firmware
             else forall j :: n < j < |trace| ==> !trace[j].frame.FirmwareAccepted?
    ensures Accepted(trace, |trace|) <==> accepted
  {
    if accepted {
      assert AcceptedAt(trace, n, n + 1, |trace|);
    }
  }

  lemma LetInFollows(s: State, e: Event, hmac: Hmac, k: ConnId)
    requires Inv(s, hmac) && k in s.conns && s.conns[k].keypad && OffersFollow(s.conns[k].trace) && LetIn(s, e, k)
    ensures k in Step(s, e, hmac).conns
    ensures OffersFollow(Step(s, e, hmac).conns[k].trace) <==> !Premature(s, e, k)
  {
    hide Apply, RegisterKeypad, Evicted, Hears, PresenceOf, OffersFollow, RecordOk, Delivered, Accepted, Encodable,
         Base, Unique;
    var conn, message := s.conns[k], Delivered(e.data).value.1;
    RegisterKeypadEffect(s, k, conn.version, message.firmware, message.hardware, e.env);
    assert Step(s, e, hmac) == RegisterKeypad(s, k, conn.version, message.firmware, message.hardware, e.env);
    EnrolFollows(conn, RegistrationMove(s, conn, conn.version, message.firmware, message.hardware, e.env));
  }

  lemma OfferFollows(s: State, e: Event, hmac: Hmac, k: ConnId)
    requires k in s.conns && OffersFollow(s.conns[k].trace) && e.Offer? && e.c == k
    ensures k in Step(s, e, hmac).conns
    ensures OffersFollow(Step(s, e, hmac).conns[k].trace) <==> !Premature(s, e, k)
  {
    hide OffersFollow, Encodable, Accepted;
    if MayOffer(s, k) {
      FollowWith(s.conns[k].trace, Sent(OfferFrame(s.conns[k].version, e.offer)));
    }
  }

  /** A registration that is not let in is at most recorded. */
  lemma ShutOut(s: State, e: Event, hmac: Hmac, k: ConnId)
    requires k in s.conns && s.conns[k].keypad && e.KeypadFrame? && e.c == k && Prompts(Arriving(e), k)
    requires !LetIn(s, e, k)
    ensures var t := Step(s, e, hmac);
            && k in t.conns && s.conns[k].trace <= t.conns[k].trace
            && forall j :: |s.conns[k].trace| <= j < |t.conns[k].trace| ==> !IsOffer(t.conns[k].trace[j])
  {
    hide Delivered, Register;
  }

  /** The order of one connection is kept by a step exactly unless an offer is premature. */
  lemma OrderStepExactly(s: State, e: Event, hmac: Hmac, k: ConnId)
    requires Inv(s, hmac) && k in s.conns && s.conns[k].keypad && OffersFollow(s.conns[k].trace)
    ensures k in Step(s, e, hmac).conns
    ensures OffersFollow(Step(s, e, hmac).conns[k].trace) <==> !Premature(s, e, k)
  {
    hide Inv, Step, OffersFollow, Continues, Delivered, MayOffer, Encodable, Accepted;
    var t := Step(s, e, hmac);
    if LetIn(s, e, k) {
      LetInFollows(s, e, hmac, k);
    } else if e.Offer? && e.c == k {
      OfferFollows(s, e, hmac, k);
    } else {
      if e.KeypadFrame? && e.c == k && Prompts(Arriving(e), k) {
        ShutOut(s, e, hmac, k);
      } else {
        StepFollows(s, e, hmac);
        assert Follows(s.conns[k], t.conns[k], k, Arriving(e));
      }
      NothingOffered(s.conns[k].trace, t.conns[k].trace);
    }
  }

  ghost predicate InSequence(s: State, k: ConnId) {
    k in s.conns && s.conns[k].keypad ==> OffersFollow(s.conns[k].trace)
  }

  ghost predicate NonePremature(s: State, events: seq<Event>, hmac: Hmac, k: ConnId)
    decreases |events|
  {
    events == [] || (!Premature(s, events[0], k) && NonePremature(Step(s, events[0], hmac), events[1..], hmac, k))
  }

  lemma SequenceStep(s: State, e: Event, hmac: Hmac, k: ConnId)
    requires Inv(s, hmac) && InSequence(s, k)
    ensures InSequence(Step(s, e, hmac), k) <==> !Premature(s, e, k)
  {
    hide Inv, Step, OffersFollow, Premature;
    if k in s.conns && s.conns[k].keypad {
      OrderStepExactly(s, e, hmac, k);
      StepKind(s, e, hmac, k);
    } else {
      NeverPremature(s, e, k);
      if k in s.conns && k in Step(s, e, hmac).conns {
        StepKind(s, e, hmac, k);
      } else if k in Step(s, e, hmac).conns {
        NewInSequence(s, e, hmac, k);
      }
    }
  }

  lemma NeverPremature(s: State, e: Event, k: ConnId)
    requires !(k in s.conns && s.conns[k].keypad)
    ensures !Premature(s, e, k)
  {
    hide Delivered, Encodable, Accepted, Accepts;
  }

  lemma NewInSequence(s: State, e: Event, hmac: Hmac, k: ConnId)
    requires Inv(s, hmac) && k !in s.conns && k in Step(s, e, hmac).conns
    ensures InSequence(Step(s, e, hmac), k)
  {
    if e.OpenBrowser? || e.OpenKeypad? {
      hide Inv;
    } else {
      hide Inv, Step, OffersFollow;
      StepKeys(s, e, hmac);
    }
  }

  /** An offer that came first stays on record. */
  lemma {:induction false} OutOfSequence(s: State, events: seq<Event>, hmac: Hmac, k: ConnId)
    requires Inv(s, hmac) && !InSequence(s, k)
    ensures !InSequence(Run(s, events, hmac), k)
    decreases |events|
  {
    hide Inv, Step, OffersFollow, Continues, Brings;
    if events != [] {
      var t := Step(s, events[0], hmac);
      StepFollows(s, events[0], hmac);
      assert Follows(s.conns[k], t.conns[k], k, Arriving(events[0]));
      if OffersFollow(t.conns[k].trace) {
        PrefixFollows(s.conns[k].trace, t.conns[k].trace);
      }
      InvStep(s, events[0], hmac);
      OutOfSequence(t, events[1..], hmac, k);
    }
  }

  lemma PrefixFollows(before: seq<Entry>, after: seq<Entry>)
    requires before <= after && OffersFollow(after)
    ensures OffersFollow(before)
  {
    hide Accepted;
    forall i | 0 <= i < |before| && IsOffer(before[i]) ensures Accepted(before, i) {
      assert after[i] == before[i];
      AcceptedPrefix(before, after, i);
    }
  }

  /**
   * Acceptance before offers, exactly: on any run each offer to a connection follows the acceptance of the registration
   * in force if and only if no offer in it is premature.
   */
  lemma {:induction false} OrderRunExactly(s: State, events: seq<Event>, hmac: Hmac, k: ConnId)
    requires Inv(s, hmac) && InSequence(s, k)
    ensures InSequence(Run(s, events, hmac), k) <==> NonePremature(s, events, hmac, k)
    decreases |events|
  {
    hide Inv, Step, InSequence, Premature;
    if events != [] {
      SequenceStep(s, events[0], hmac, k);
      InvStep(s, events[0], hmac);
      if Premature(s, events[0], k) {
        OutOfSequence(Step(s, events[0], hmac), events[1..], hmac, k);
      } else {
        OrderRunExactly(Step(s, events[0], hmac), events[1..], hmac, k);
      }
    }
  }
}
