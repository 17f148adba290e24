/** What the record of a keypad connection proves about its LED confirmation, its configuration and its offers. */
module SessionRecords {
  import opened Prelude
  import Credentials
  import opened DeviceAuth
  import opened Protocol
  import opened ServerFrames
  import opened Sessions
  import opened SessionMoves

  // ---- LED confirmation ----

  /** A command or a registration, after which older acknowledgements no longer count. */
  predicate LedTurn(e: Entry) {
    (e.Sent? && e.frame.LedCommand?) || (e.Received? && e.message.Registration?)
  }

  predicate LedEntry(e: Entry) {
    LedTurn(e) || (e.Received? && e.message.LedApplied?)
  }

  /** The last command or registration is the command `p`, sent as entry `i`. */
  predicate Outstanding(trace: seq<Entry>, i: int, p: Pending) {
    && 0 <= i < |trace| && trace[i] == Sent(LedCommand(p.nonce, p.leds))
    && forall m :: i < m < |trace| ==> !LedTurn(trace[m])
  }

  /** Entry `j` is an acknowledgement received for the last command, with that command's own nonce. */
  predicate Confirmed(trace: seq<Entry>, i: int, j: int, p: Pending) {
    Outstanding(trace, i, p) && i < j < |trace| && trace[j].Received? && trace[j].message == LedApplied(p.nonce)
  }

  /**
   * The confirmed colours are those of the last command since the last registration, if it was acknowledged; until
   * then the command is pending.
   */
  ghost predicate LedsOk(conn: Conn) {
    && (conn.pending.Some? ==>
         conn.applied.None? && HasId(conn) && exists i :: Outstanding(conn.trace, i, conn.pending.value))
    && (conn.applied.Some? ==> exists i, j, p :: Confirmed(conn.trace, i, j, p) && p.leds == conn.applied.value)
    && (forall i, p :: Outstanding(conn.trace, i, p) ==> conn.pending == Some(p) || conn.applied == Some(p.leds))
    && (forall i, j, p :: Confirmed(conn.trace, i, j, p) ==> conn.applied == Some(p.leds))
  }

  /** Which commands and acknowledgements another entry leaves as they were. */
  lemma OutstandingWith(trace: seq<Entry>, e: Entry)
    requires !LedTurn(e)
    ensures forall i, p :: Outstanding(trace + [e], i, p) <==> Outstanding(trace, i, p)
  {
    var more := trace + [e];
    assert more[|trace|] == e && forall m :: 0 <= m < |trace| ==> more[m] == trace[m];
    forall i, p ensures Outstanding(more, i, p) <==> Outstanding(trace, i, p) {
      if Outstanding(trace, i, p) {
        assert Outstanding(more, i, p);
      }
      if Outstanding(more, i, p) {
        assert i != |trace|;
        assert Outstanding(trace, i, p);
      }
    }
  }

  lemma ConfirmedWith(trace: seq<Entry>, e: Entry)
    requires !LedTurn(e)
    ensures forall i, j, p :: Confirmed(trace + [e], i, j, p) <==>
              Confirmed(trace, i, j, p)
                  || (j == |trace| && Outstanding(trace, i, p) && e.Received? && e.message == LedApplied(p.nonce))
  {
    hide Outstanding;
    OutstandingWith(trace, e);
    assert forall i, p :: Outstanding(trace, i, p) ==> i < |trace| by { OutstandingInside(trace); }
  }

  lemma OutstandingInside(trace: seq<Entry>)
    ensures forall i, p :: Outstanding(trace, i, p) ==> 0 <= i < |trace|
  {}

  lemma LedsQuiet(conn: Conn, e: Entry)
    requires LedsOk(conn) && !LedEntry(e)
    ensures LedsOk(With(conn, e))
  {
    hide Outstanding, Confirmed, HasId;
    OutstandingWith(conn.trace, e);
    ConfirmedWith(conn.trace, e);
    SameId(conn, With(conn, e));
  }

  lemma SameId(a: Conn, b: Conn)
    requires b.controllerId == a.controllerId
    ensures HasId(b) == HasId(a)
  {}

  lemma LedsTurn(conn: Conn, e: Entry)
    requires LedTurn(e) && |conn.trace| > 0 && conn.trace[|conn.trace| - 1] == e && conn.applied.None?
    requires conn.pending == if e.Sent? then Some(Pending(e.frame.nonce, e.frame.channels)) else None
    requires conn.pending.Some? ==> HasId(conn)
    ensures LedsOk(conn)
  {
    hide HasId;
    if conn.pending.Some? {
      assert Outstanding(conn.trace, |conn.trace| - 1, conn.pending.value);
    }
    assert LedTurn(conn.trace[|conn.trace| - 1]);
    assert forall i, j, p :: !Confirmed(conn.trace, i, j, p);
  }

  lemma OutstandingUnique(trace: seq<Entry>, i: int, p: Pending, j: int, q: Pending)
    requires Outstanding(trace, i, p) && Outstanding(trace, j, q)
    ensures i == j && p == q
  {
    assert LedTurn(trace[i]) && LedTurn(trace[j]);
  }

  /** An acknowledgement counts exactly if it answers the outstanding command for the first time. */
  lemma LedsAcknowledged(conn: Conn, version: nat, nonce: Bytes, at: int)
    requires LedsOk(conn)
    ensures LedsOk(Acknowledging(conn, version, nonce, at))
  {
    hide Outstanding, Confirmed, HasId;
    var r := Acknowledging(conn, version, nonce, at);
    var e := r.trace[|conn.trace|];
    OutstandingWith(conn.trace, e);
    ConfirmedWith(conn.trace, e);
    SameId(conn, r);
    if HasId(conn) && conn.pending.Some? && conn.pending.value.nonce == nonce {
      var i :| Outstanding(conn.trace, i, conn.pending.value);
      assert Confirmed(r.trace, i, |conn.trace|, conn.pending.value);
      forall k, p | Outstanding(conn.trace, k, p) ensures p == conn.pending.value {
        OutstandingUnique(conn.trace, i, conn.pending.value, k, p);
      }
      assert forall k, j, p :: Confirmed(conn.trace, k, j, p) ==>
               Outstanding(conn.trace, k, p) by { ConfirmedOutstanding(conn.trace); }
    }
  }

  lemma ConfirmedOutstanding(trace: seq<Entry>)
    ensures forall i, j, p :: Confirmed(trace, i, j, p) ==> Outstanding(trace, i, p)
  {}

  predicate SameLeds(a: Conn, b: Conn) {
    b.trace == a.trace && b.pending == a.pending && b.applied == a.applied
        && (a.pending.Some? ==> b.controllerId == a.controllerId)
  }

  lemma LedsFields(a: Conn, b: Conn)
    requires LedsOk(a) && SameLeds(a, b)
    ensures LedsOk(b)
  {
    hide Outstanding, Confirmed, HasId;
    if a.pending.Some? {
      SameId(a, b);
    }
  }

  lemma LedsLogged(conn: Conn, e: Entry, result: Conn)
    requires LedsOk(conn) && !LedEntry(e) && SameLeds(With(conn, e), result)
    ensures LedsOk(result)
  {
    hide LedsOk;
    LedsQuiet(conn, e);
    LedsFields(With(conn, e), result);
  }

  lemma LedsEnrolled(conn: Conn, m: Move)
    requires LedsOk(conn) && m.Enrol?
    ensures LedsOk(Apply(conn, m))
  {
    hide LedsOk, Encodable;
    var a := Enrolled(conn, m.version, m.firmware, m.hardware, m.at);
    LedsTurn(a, Received(m.version, Registration(m.firmware, m.hardware), m.at, true));
    var b := Accepting(a, m.firmware, m.accepted);
    if m.accepted {
      LedsLogged(a, Sent(FirmwareAccepted(a.version, m.firmware)), b);
    }
    var c := Asking(b, m.nonce);
    if b.version == CONFIGURATION_VERSION {
      LedsFields(b, b.(query := Some(m.nonce)));
      LedsLogged(b.(query := Some(m.nonce)), Sent(ConfigurationQuery(m.nonce)), c);
    }
    if Proposing(c, m.offer) != c {
      LedsLogged(c, Sent(OfferFrame(c.version, m.offer.value)), Proposing(c, m.offer));
    }
  }

  /** Every move keeps the confirmation tied to the last command. */
  lemma LedsMove(conn: Conn, m: Move, hmac: Hmac)
    requires LedsOk(conn) && IdentityOk(conn, hmac) && Allowed(conn, m, hmac)
    ensures LedsOk(Apply(conn, m))
  {
    hide LedsOk, Encodable, Proof, Credentials.ToHex, HasId, Proved;
    var r := Apply(conn, m);
    match m {
      case Enter(version, id, mac, at, _) =>
        var a := With(conn, Received(version, AuthResponse(id, mac), at, true));
        LedsQuiet(conn, Received(version, AuthResponse(id, mac), at, true));
        LedsLogged(a, Sent(AuthResult(version, 0, id)), r);
      case Enrol(_, _, _, _, _, _, _) => LedsEnrolled(conn, m);
      case Close => LedsFields(conn, r);
      case Idle =>
      case Unavailable(_) => LedsFields(conn, r);
      case Refuse(version) => LedsLogged(conn, Sent(AuthResult(version, 1, [])), r);
      case Lapse(version, fw, hw, at) => LedsTurn(r, Received(version, Registration(fw, hw), at, false));
      case Acknowledge(version, nonce, at) => LedsAcknowledged(conn, version, nonce, at);
      case Prove(_, _, _, _) => LedsLogged(conn, r.trace[|conn.trace|], r);
      case Press(version, message, at) => LedsLogged(conn, Received(version, message, at, true), r);
      case Light(nonce, leds) => SameId(conn, r); LedsTurn(r, Sent(LedCommand(nonce, leds)));
      case LightOld(leds) => LedsLogged(conn, Sent(Configuration(conn.version, leds)), r);
      case Propose(o) =>
        if r != conn {
          LedsLogged(conn, Sent(OfferFrame(conn.version, o)), r);
        }
    }
  }

  // ---- Configuration proofs ----

  /** A registration that took effect: the start of an epoch. */
  predicate EpochStart(e: Entry) {
    e.Received? && e.message.Registration? && e.effective
  }

  /** Entry `i` starts an epoch with this firmware and hardware that lasts beyond entry `upTo - 1`. */
  predicate Epoch(trace: seq<Entry>, firmware: Bytes, hardware: Bytes, i: int, upTo: int) {
    && 0 <= i < upTo <= |trace| && EpochStart(trace[i]) && trace[i].message == Registration(firmware, hardware)
    && forall m :: i < m < upTo ==> !EpochStart(trace[m])
  }

  predicate Asked(trace: seq<Entry>, firmware: Bytes, hardware: Bytes, nonce: Bytes, i: int, j: int) {
    Epoch(trace, firmware, hardware, i, |trace|) && i < j < |trace| && trace[j] == Sent(ConfigurationQuery(nonce))
  }

  /**
   * In the epoch entry `i` starts, the server asked with entry `j`, and with entry `l` accepted a report carrying
   * the nonce it asked with.
   */
  predicate Reported(trace: seq<Entry>, firmware: Bytes, hardware: Bytes, v: Verified, i: int, j: int, l: int) {
    && 0 <= l < |trace| && Epoch(trace, firmware, hardware, i, l) && i < j < l
    && trace[j].Sent? && trace[j].frame.ConfigurationQuery?
    && trace[l].Received? && trace[l].message.ConfigurationReport? && trace[l].effective
    && trace[l].message.nonce == trace[j].frame.nonce
    && v == Verified(Credentials.ToHex(trace[l].message.digest), trace[l].at)
  }

  ghost predicate Proven(trace: seq<Entry>, firmware: Bytes, hardware: Bytes, v: Verified) {
    exists i, j, l :: Reported(trace, firmware, hardware, v, i, j, l)
  }

  ghost predicate ProofOk(conn: Conn) {
    && (conn.query.Some? ==>
          && conn.version == CONFIGURATION_VERSION && conn.authenticated && conn.firmware.Some? && conn.hardware.Some?
          && exists i, j :: Asked(conn.trace, conn.firmware.value, conn.hardware.value, conn.query.value, i, j))
    && (conn.verified.Some? ==>
          conn.firmware.Some? && conn.hardware.Some?
          && Proven(conn.trace, conn.firmware.value, conn.hardware.value, conn.verified.value))
  }

  lemma ProvenLasts(trace: seq<Entry>, more: seq<Entry>, firmware: Bytes, hardware: Bytes, v: Verified)
    requires Proven(trace, firmware, hardware, v) && trace <= more
    ensures Proven(more, firmware, hardware, v)
  {
    var i, j, l :| Reported(trace, firmware, hardware, v, i, j, l);
    assert Reported(more, firmware, hardware, v, i, j, l);
  }

  predicate SameProof(a: Conn, b: Conn) {
    && b.trace == a.trace && b.query == a.query && b.verified == a.verified && b.version == a.version
    && b.authenticated == a.authenticated && b.firmware == a.firmware && b.hardware == a.hardware
  }

  lemma ProofFields(a: Conn, b: Conn)
    requires ProofOk(a) && SameProof(a, b)
    ensures ProofOk(b)
  {
    hide Asked, Reported;
  }

  lemma ProofQuiet(conn: Conn, e: Entry)
    requires ProofOk(conn) && !EpochStart(e)
    ensures ProofOk(With(conn, e))
  {
    var trace, more := conn.trace, With(conn, e).trace;
    if conn.query.Some? {
      var i, j :| Asked(trace, conn.firmware.value, conn.hardware.value, conn.query.value, i, j);
      assert Asked(more, conn.firmware.value, conn.hardware.value, conn.query.value, i, j);
    }
    if conn.verified.Some? {
      ProvenLasts(trace, more, conn.firmware.value, conn.hardware.value, conn.verified.value);
    }
  }

  lemma ProofLogged(conn: Conn, e: Entry, result: Conn)
    requires ProofOk(conn) && !EpochStart(e) && SameProof(With(conn, e), result)
    ensures ProofOk(result)
  {
    hide ProofOk, EpochStart;
    ProofQuiet(conn, e);
    ProofFields(With(conn, e), result);
  }

  lemma ProofAccepted(conn: Conn, version: nat, nonce: Bytes, digest: Bytes, at: int)
    requires ProofOk(conn) && HasId(conn) && conn.query == Some(nonce)
    ensures ProofOk(Proving(conn, version, nonce, digest, at))
  {
    hide Credentials.ToHex;
    var r, n := Proving(conn, version, nonce, digest, at), |conn.trace|;
    var i, j :| Asked(conn.trace, conn.firmware.value, conn.hardware.value, nonce, i, j);
    assert r.trace[n] == Received(version, ConfigurationReport(nonce, digest), at, true);
    assert Reported(r.trace, conn.firmware.value, conn.hardware.value, r.verified.value, i, j, n);
  }

  /** A new epoch begins without a proof; in version 3 its first question is its own. */
  lemma ProofAsked(conn: Conn, a: Conn, firmware: Bytes, hardware: Bytes, nonce: Bytes)
    requires conn.authenticated && conn.query.Some? ==> conn.version == CONFIGURATION_VERSION
    requires a.authenticated && a.verified.None? && a.firmware == Some(firmware) && a.hardware == Some(hardware)
    requires a.query.Some? ==> a.version == CONFIGURATION_VERSION
    requires exists i :: Epoch(a.trace, firmware, hardware, i, |a.trace|)
    ensures ProofOk(Asking(a, nonce))
  {
    var r := Asking(a, nonce);
    var i :| Epoch(a.trace, firmware, hardware, i, |a.trace|);
    if a.version == CONFIGURATION_VERSION {
      assert Asked(r.trace, firmware, hardware, nonce, i, |a.trace|);
    }
  }

  lemma ProofEnrolled(conn: Conn, m: Move, hmac: Hmac)
    requires ProofOk(conn) && Allowed(conn, m, hmac) && m.Enrol?
    ensures ProofOk(Apply(conn, m))
  {
    var a := Enrolled(conn, m.version, m.firmware, m.hardware, m.at);
    var n := |conn.trace|;
    assert a.trace[n] == Received(m.version, Registration(m.firmware, m.hardware), m.at, true);
    assert Epoch(a.trace, m.firmware, m.hardware, n, n + 1);
    var b := Accepting(a, m.firmware, m.accepted);
    assert Epoch(b.trace, m.firmware, m.hardware, n, |b.trace|);
    hide ProofOk, Encodable, Epoch;
    if conn.query.Some? {
      ProofVersion(conn);
    }
    var c := Asking(b, m.nonce);
    ProofAsked(conn, b, m.firmware, m.hardware, m.nonce);
    if Proposing(c, m.offer) != c {
      ProofLogged(c, Sent(OfferFrame(c.version, m.offer.value)), Proposing(c, m.offer));
    }
  }

  lemma ProofVersion(conn: Conn)
    requires ProofOk(conn) && conn.query.Some?
    ensures conn.version == CONFIGURATION_VERSION
  {}

  /** Every move keeps a proof inside the epoch it was given in. */
  lemma ProofMove(conn: Conn, m: Move, hmac: Hmac)
    requires ProofOk(conn) && IdentityOk(conn, hmac) && Allowed(conn, m, hmac)
    ensures ProofOk(Apply(conn, m))
  {
    hide Encodable, Proof, Credentials.ToHex, Asked, Proven, Proved;
    var r := Apply(conn, m);
    match m {
      case Enter(version, id, mac, at, _) => assert conn.query.None? && conn.verified.None?;
      case Enrol(_, _, _, _, _, _, _) => ProofEnrolled(conn, m, hmac);
      case Close => ProofFields(conn, r);
      case Idle =>
      case Unavailable(_) => assert conn.query.None? && conn.verified.None?;
      case Refuse(version) => assert conn.query.None? && conn.verified.None?;
      case Lapse(version, fw, hw, at) => ProofLogged(Cleared(conn), Received(version, Registration(fw, hw), at, false),
          r);
      case Acknowledge(version, nonce, at) => ProofLogged(conn, r.trace[|conn.trace|], r);
      case Prove(version, nonce, digest, at) =>
        if HasId(conn) && conn.query == Some(nonce) {
          ProofAccepted(conn, version, nonce, digest, at);
        } else {
          ProofLogged(conn, Received(version, ConfigurationReport(nonce, digest), at, false), r);
        }
      case Press(version, message, at) => ProofLogged(conn, Received(version, message, at, true), r);
      case Light(nonce, leds) =>
        ProofLogged(conn.(pending := Some(Pending(nonce, leds)), applied := None), Sent(LedCommand(nonce, leds)), r);
      case LightOld(leds) => ProofLogged(conn, Sent(Configuration(conn.version, leds)), r);
      case Propose(o) =>
        if r != conn {
          ProofLogged(conn, Sent(OfferFrame(conn.version, o)), r);
        }
    }
  }

  // ---- Acceptance before offers ----

  /** The registration in force before entry `upTo` is entry `i`, and entry `j` accepted the firmware it named. */
  predicate AcceptedAt(trace: seq<Entry>, i: int, j: int, upTo: int) {
    && 0 <= i < j < upTo <= |trace| && EpochStart(trace[i])
    && trace[j].Sent? && trace[j].frame.FirmwareAccepted? && trace[j].frame.firmware == trace[i].message.firmware
    && forall m :: i < m < upTo ==> !EpochStart(trace[m])
  }

  ghost predicate Accepted(trace: seq<Entry>, upTo: int) {
    exists i, j :: AcceptedAt(trace, i, j, upTo)
  }

  predicate IsOffer(e: Entry) {
    e.Sent? && e.frame.UpdateAvailable?
  }

  ghost predicate OffersFollow(trace: seq<Entry>) {
    forall i :: 0 <= i < |trace| && IsOffer(trace[i]) ==> Accepted(trace, i)
  }

  ghost predicate OrderOk(conn: Conn) {
    OffersFollow(conn.trace) && (conn.firmware.Some? ==> Accepted(conn.trace, |conn.trace|))
  }

  lemma AcceptedPrefix(trace: seq<Entry>, more: seq<Entry>, upTo: int)
    requires trace <= more && upTo <= |trace|
    ensures Accepted(trace, upTo) <==> Accepted(more, upTo)
  {
    if i, j :| AcceptedAt(trace, i, j, upTo) {
      assert AcceptedAt(more, i, j, upTo);
    }
    if i, j :| AcceptedAt(more, i, j, upTo) {
      assert AcceptedAt(trace, i, j, upTo);
    }
  }

  /** A registration stays accepted until the next one. */
  lemma AcceptedLonger(trace: seq<Entry>, e: Entry)
    requires Accepted(trace, |trace|) && !EpochStart(e)
    ensures Accepted(trace + [e], |trace| + 1)
  {
    var i, j :| AcceptedAt(trace, i, j, |trace|);
    assert AcceptedAt(trace + [e], i, j, |trace| + 1);
  }

  lemma FollowWith(trace: seq<Entry>, e: Entry)
    ensures OffersFollow(trace + [e]) <==> OffersFollow(trace) && (IsOffer(e) ==> Accepted(trace, |trace|))
  {
    hide Accepted;
    var more := trace + [e];
    assert more[|trace|] == e && forall i :: 0 <= i < |trace| ==> more[i] == trace[i];
    forall i | 0 <= i <= |trace| ensures Accepted(trace, i) <==> Accepted(more, i) {
      AcceptedPrefix(trace, more, i);
    }
  }

  lemma OrderLogged(conn: Conn, e: Entry, result: Conn)
    requires OrderOk(conn) && !EpochStart(e) && result.trace == conn.trace + [e]
    requires IsOffer(e) ==> conn.firmware.Some?
    requires result.firmware == conn.firmware
    ensures OrderOk(result)
  {
    hide Accepted, OffersFollow;
    FollowWith(conn.trace, e);
    if conn.firmware.Some? {
      AcceptedLonger(conn.trace, e);
    }
  }

  lemma OrderFields(a: Conn, b: Conn)
    requires OrderOk(a) && b.trace == a.trace && b.firmware == a.firmware
    ensures OrderOk(b)
  {}

  lemma OrderEnrolled(conn: Conn, m: Move)
    requires OrderOk(conn) && m.Enrol? && m.accepted
    ensures OrderOk(Apply(conn, m))
  {
    var a := Enrolled(conn, m.version, m.firmware, m.hardware, m.at);
    var b := Accepting(a, m.firmware, true);
    var n, e := |conn.trace|, Received(m.version, Registration(m.firmware, m.hardware), m.at, true);
    assert a.trace == conn.trace + [e] && b.trace == a.trace + [Sent(FirmwareAccepted(a.version, m.firmware))];
    FollowWith(conn.trace, e);
    FollowWith(a.trace, Sent(FirmwareAccepted(a.version, m.firmware)));
    assert AcceptedAt(b.trace, n, n + 1, n + 2);
    assert OrderOk(b);
    hide Encodable, OffersFollow, AcceptedAt, EpochStart;
    hide OrderOk;
    var c := Asking(b, m.nonce);
    if b.version == CONFIGURATION_VERSION {
      OrderLogged(b, Sent(ConfigurationQuery(m.nonce)), c);
    }
    if Proposing(c, m.offer) != c {
      OrderLogged(c, Sent(OfferFrame(c.version, m.offer.value)), Proposing(c, m.offer));
    }
  }

  /** As long as every registration is accepted, no offer precedes the acceptance of the firmware it would replace. */
  lemma OrderMove(conn: Conn, m: Move, hmac: Hmac)
    requires OrderOk(conn) && Allowed(conn, m, hmac) && (m.Enrol? ==> m.accepted)
    requires !conn.authenticated ==> conn.firmware.None?
    ensures OrderOk(Apply(conn, m))
  {
    hide Encodable, Proof, Credentials.ToHex, OrderOk, AcceptedAt;
    var r := Apply(conn, m);
    match m {
      case Enter(version, id, mac, at, _) =>
        var a := With(conn, Received(version, AuthResponse(id, mac), at, true));
        OrderLogged(conn, Received(version, AuthResponse(id, mac), at, true), a);
        OrderLogged(a, Sent(AuthResult(version, 0, id)), r);
      case Enrol(_, _, _, _, _, _, _) => OrderEnrolled(conn, m);
      case Close => OrderFields(conn, r);
      case Idle =>
      case Unavailable(_) => OrderFields(conn, r);
      case Refuse(version) => OrderLogged(conn, Sent(AuthResult(version, 1, [])), r);
      case Lapse(version, fw, hw, at) => OrderLogged(conn, Received(version, Registration(fw, hw), at, false), r);
      case Acknowledge(_, _, _) => OrderLogged(conn, r.trace[|conn.trace|], r);
      case Prove(_, _, _, _) => OrderLogged(conn, r.trace[|conn.trace|], r);
      case Press(version, message, at) => OrderLogged(conn, Received(version, message, at, true), r);
      case Light(nonce, leds) => OrderLogged(conn, Sent(LedCommand(nonce, leds)), r);
      case LightOld(leds) => OrderLogged(conn, Sent(Configuration(conn.version, leds)), r);
      case Propose(o) =>
        if r != conn {
          OrderLogged(conn, Sent(OfferFrame(conn.version, o)), r);
        }
    }
  }
}
