/** Runs from the start of the server on which a receiver's view parts from the server's state. */
module FailingRuns {
  import opened Prelude
  import Credentials
  import opened DeviceAuth
  import Utf8
  import opened Protocol
  import opened ServerFrames
  import opened Sessions
  import opened SessionRegistry
  import opened SessionMoves
  import opened SessionRuns
  import InstallationEvidence
  import LedViews
  import PresenceViews

  lemma {:induction false} RunNext(s: State, events: seq<Event>, i: nat, hmac: Hmac)
    requires i < |events|
    ensures Run(s, events[..i + 1], hmac) == Step(Run(s, events[..i], hmac), events[i], hmac)
    decreases i
  {
    hide Step;
    if i > 0 {
      RunNext(Step(s, events[0], hmac), events[1..], i - 1, hmac);
      assert events[..i + 1][1..] == events[1..][..i] && events[..i][1..] == events[1..][..i - 1];
    }
  }

  const RECEIVER := Reg(True, Undefined, Connected, None, None)

  // ---- A browser under two ids ----

  const FIRST: Bytes := [0x61]
  const SECOND: Bytes := [0x62]

  function ControllerReg(id: Bytes): Reg {
    Reg(False, Str(id), Connected, None, None)
  }

  /** A receiver, and a controller that registers under one id and then under another. */
  const TWO_IDS: seq<Event> := [
    OpenBrowser(0), OpenBrowser(1), BrowserRegistration(0, RECEIVER),
    BrowserRegistration(1, ControllerReg(FIRST)), BrowserRegistration(1, ControllerReg(SECOND))]

  /** Two open browsers are all there is. */
  ghost predicate TwoBrowsers(s: State) {
    && s.conns.Keys == {0, 1} && (forall k :: k in s.live <==> k == 0 || k == 1)
    && Talking(s, 0, false) && Talking(s, 1, false) && !s.conns[0].authenticated && !s.conns[1].authenticated
  }

  lemma BothOpen(hmac: Hmac)
    ensures var s := Step(Step(START, OpenBrowser(0), hmac), OpenBrowser(1), hmac);
            TwoBrowsers(s) && s.conns[0].receiver.Unset? && s.conns[1].receiver.Unset?
  {
    var a := Step(START, OpenBrowser(0), hmac);
    assert a.conns == map[0 := NewConn(false)] && a.live == [0];
    var b := Step(a, OpenBrowser(1), hmac);
    assert b.conns == map[0 := NewConn(false), 1 := NewConn(false)] && b.live == [0, 1];
  }

  lemma Rest(s: State, t: State, c: ConnId)
    requires TwoBrowsers(s) && t.conns.Keys == s.conns.Keys && (forall k :: k in t.live <==> k in s.live)
    requires (c == 0 || c == 1)
    requires t.conns[c].keypad == s.conns[c].keypad && t.conns[c].open && !t.conns[c].authenticated
    requires forall k :: k in s.conns && k != c ==>
               t.conns[k] == s.conns[k] || exists note :: t.conns[k] == Hears(s, k, note)
    ensures TwoBrowsers(t) && forall k :: k in s.conns && k != c ==>
              t.conns[k].receiver == s.conns[k].receiver && t.conns[k].controllerId == s.conns[k].controllerId
  {
    hide With;
    assert forall k, note :: k in s.conns ==> With(s.conns[k], Told(note)).open == s.conns[k].open by { Recorded(s); }
    forall k | k in s.conns && k != c ensures SameRole(s.conns[k], t.conns[k]) && t.conns[k].open == s.conns[k].open {
      if t.conns[k] != s.conns[k] {
        var note :| t.conns[k] == Hears(s, k, note);
        SilentRole(s, k, note);
      }
    }
  }

  lemma Recorded(s: State)
    ensures forall k, note :: k in s.conns ==> With(s.conns[k], Told(note)).open == s.conns[k].open
  {}

  lemma ReceiverJoins(s: State, hmac: Hmac)
    requires TwoBrowsers(s) && s.conns[1].receiver.Unset?
    ensures var t := Step(s, BrowserRegistration(0, RECEIVER), hmac);
            TwoBrowsers(t) && t.conns[0].receiver.True? && t.conns[1].receiver.Unset?
  {
    hide Register, Hears, Snapshot, Controllers;
    RegisterReceiverEffect(s, 0, RECEIVER);
    Rest(s, Register(s, 0, RECEIVER), 0);
  }

  lemma ControllerJoins(s: State, id: Bytes, hmac: Hmac)
    requires TwoBrowsers(s) && Base(s) && s.conns[0].receiver.True?
    ensures var t := Step(s, BrowserRegistration(1, ControllerReg(id)), hmac);
            TwoBrowsers(t) && t.conns[0].receiver.True? && t.conns[1].receiver.False?
                && t.conns[1].controllerId == Str(id)
  {
    hide Register, Hears, Evicted, PresenceOf, Base;
    var r := ControllerReg(id);
    RegisterControllerEffect(s, 1, r);
    forall k ensures !Evicted(s, 1, r, k) {
      EvictsNobody(s, 1, r, k);
    }
    Rest(s, Register(s, 1, r), 1);
  }

  /** The receiver goes on believing in the first id: the second registration misleads it. */
  lemma SecondIdParts(s: State, hmac: Hmac)
    requires TwoBrowsers(s) && s.conns[0].receiver.True? && s.conns[1].receiver.False?
    requires s.conns[1].controllerId == Str(FIRST)
    ensures PresenceViews.Parts(s, BrowserRegistration(1, ControllerReg(SECOND)))
  {
    assert HasFlag(s, 0, True) && HasFlag(s, 1, False);
    assert FIRST in PresenceViews.Ids(s);
    assert FIRST !in PresenceViews.OtherIds(s, 1);
    assert PresenceViews.OtherReceiver(s, 1);
  }

  /** On this run the receiver's view ends up wrong. */
  lemma TwoIdsRun(hmac: Hmac)
    ensures !PresenceViews.Agrees(Run(START, TWO_IDS, hmac))
    ensures PresenceViews.Agrees(Run(START, TWO_IDS[..4], hmac))
  {
    hide Step, Inv, PresenceViews.Agrees, PresenceViews.Parts, TwoBrowsers, Base;
    var s2 := Step(Step(START, TWO_IDS[0], hmac), TWO_IDS[1], hmac);
    var s3 := Step(s2, TWO_IDS[2], hmac);
    var s4 := Step(s3, TWO_IDS[3], hmac);
    BothOpen(hmac);
    StepsTo(TWO_IDS, hmac);
    Started(hmac);
    InvTwice(START, TWO_IDS[0], TWO_IDS[1], hmac);
    QuietEvents(hmac);
    PresenceViews.AgreesStep(START, TWO_IDS[0], hmac);
    PresenceViews.AgreesStep(Step(START, TWO_IDS[0], hmac), TWO_IDS[1], hmac);
    ReceiverJoins(s2, hmac);
    InvStep(s2, TWO_IDS[2], hmac);
    assert !PresenceViews.Parts(s2, TWO_IDS[2]) by { NoOther(s2); }
    PresenceViews.AgreesStep(s2, TWO_IDS[2], hmac);
    assert Base(s3) by { InvBase(s3, hmac); }
    ControllerJoins(s3, FIRST, hmac);
    InvStep(s3, TWO_IDS[3], hmac);
    FirstIdFits(s3);
    PresenceViews.AgreesStep(s3, TWO_IDS[3], hmac);
    SecondIdParts(s4, hmac);
    PresenceViews.AgreesStep(s4, TWO_IDS[4], hmac);
  }

  lemma StepsTo(events: seq<Event>, hmac: Hmac)
    requires |events| == 5
    ensures var s2 := Step(Step(START, events[0], hmac), events[1], hmac);
            var s4 := Step(Step(s2, events[2], hmac), events[3], hmac);
            Run(START, events[..4], hmac) == s4 && Run(START, events, hmac) == Step(s4, events[4], hmac)
  {
    hide Step;
    RunNext(START, events, 0, hmac);
    RunNext(START, events, 1, hmac);
    RunNext(START, events, 2, hmac);
    RunNext(START, events, 3, hmac);
    RunNext(START, events, 4, hmac);
    assert events[..0] == [] && events[..5] == events;
  }

  lemma Started(hmac: Hmac)
    ensures Inv(START, hmac) && PresenceViews.Agrees(START)
  {}

  lemma InvTwice(s: State, a: Event, b: Event, hmac: Hmac)
    requires Inv(s, hmac)
    ensures Inv(Step(s, a, hmac), hmac) && Inv(Step(Step(s, a, hmac), b, hmac), hmac)
  {
    hide Inv, Step;
    InvStep(s, a, hmac);
    InvStep(Step(s, a, hmac), b, hmac);
  }

  lemma QuietEvents(hmac: Hmac)
    ensures forall s, k :: !PresenceViews.Parts(s, OpenBrowser(k))
  {}

  lemma NoOther(s: State)
    requires TwoBrowsers(s) && s.conns[1].receiver.Unset?
    ensures !PresenceViews.Parts(s, BrowserRegistration(0, RECEIVER))
  {}

  lemma InvBase(s: State, hmac: Hmac)
    requires Inv(s, hmac)
    ensures Base(s)
  {}

  lemma FirstIdFits(s: State)
    requires TwoBrowsers(s) && Base(s) && s.conns[0].receiver.True? && s.conns[1].receiver.Unset?
    ensures !PresenceViews.Parts(s, BrowserRegistration(1, ControllerReg(FIRST)))
  {
    hide Base;
    PresenceViews.DisciplinedRegistration(s, 1, ControllerReg(FIRST));
  }

  // ---- A keypad dropped from the credentials ----

  const ID: Bytes := [0x61]
  const LEDS: Leds := [1, 2, 3, 4, 5, 6]
  const FIRMWARE: Bytes := [0x31]
  const BOARD: Bytes := [0x68]
  const DEVICE := Credentials.NewDevice(Repeat(0x30, 64))
  const CHALLENGE: Bytes := Repeat(0, 32)
  const LED_NONCE: Bytes := Repeat(1, 32)
  const QUERY: Bytes := Repeat(2, 32)

  /** The credentials hold the keypad when it authenticates. */
  const ENV := Environment(QUERY, 1000, Some(map[ID := DEVICE]), true, None)

  /** A keypad frame in version 3. */
  function KeypadSends(kind: nat, items: seq<Item>): Event {
    KeypadFrame(0, true, EncodeFrame(kind, CONFIGURATION_VERSION, items), ENV)
  }

  const REGISTERS := KeypadSends(REGISTRATION, [Text(FIRMWARE), Text(BOARD)])

  function Mac(hmac: Hmac): Bytes {
    Proof(hmac, DEVICE.secret, ID, CHALLENGE)
  }

  /**
   * A keypad authenticates and registers, a receiver joins, a command is sent and acknowledged; then the keypad is
   * taken out of the credentials and registers again.
   */
  function Dropped(hmac: Hmac): (events: seq<Event>)
    ensures |events| == 9
  {
    [OpenKeypad(0, CHALLENGE), KeypadSends(AUTH_RESPONSE, [Text(ID), Blob(Mac(hmac))]), REGISTERS,
     OpenBrowser(1), BrowserRegistration(1, RECEIVER),
     BrowserConfiguration(1, Str(ID), Some(LEDS), [LED_NONCE]), KeypadSends(LED_APPLIED, [Blob(LED_NONCE)]),
     Reloaded(map[]), REGISTERS]
  }

  lemma FrameDelivers(kind: nat, items: seq<Item>)
    requires Legal(kind, CONFIGURATION_VERSION, items)
    ensures var data := EncodeFrame(kind, CONFIGURATION_VERSION, items);
            && 0 < |data| <= MAX_DEVICE_FRAME_SIZE
            && Delivered(data) == Some((CONFIGURATION_VERSION, Deliver(kind, items)))
  {
    hide EncodeFrame, Decode, Deliver, Legal;
    DecodeExact(EncodeFrame(kind, CONFIGURATION_VERSION, items), kind, CONFIGURATION_VERSION, items);
    FrameSize(kind, CONFIGURATION_VERSION, items);
  }

  lemma PlainLetter(text: Bytes, max: nat)
    requires |text| == 1 && 0x20 <= text[0] < 0x80 && max >= 1
    ensures LegalText(text, max) && Utf8.Decoded(text) == text
  {
    assert Utf8.ScalarLength(text) == 1 && text[1..] == [];
  }

  lemma FramesLegal(hmac: Hmac)
    requires |Mac(hmac)| == 32
    ensures Legal(AUTH_RESPONSE, CONFIGURATION_VERSION, [Text(ID), Blob(Mac(hmac))])
    ensures Legal(REGISTRATION, CONFIGURATION_VERSION, [Text(FIRMWARE), Text(BOARD)])
    ensures Legal(LED_APPLIED, CONFIGURATION_VERSION, [Blob(LED_NONCE)])
    ensures Utf8.Decoded(ID) == ID && Utf8.Decoded(FIRMWARE) == FIRMWARE && Utf8.Decoded(BOARD) == BOARD
  {
    hide LegalText, Mac;
    PlainLetter(ID, 64);
    PlainLetter(FIRMWARE, 47);
    PlainLetter(BOARD, 64);
  }

  lemma FramesDeliver(hmac: Hmac)
    requires |Mac(hmac)| == 32
    ensures Delivers(KeypadSends(AUTH_RESPONSE, [Text(ID), Blob(Mac(hmac))]), AuthResponse(ID, Mac(hmac)))
    ensures Delivers(REGISTERS, Registration(FIRMWARE, BOARD))
    ensures Delivers(KeypadSends(LED_APPLIED, [Blob(LED_NONCE)]), LedApplied(LED_NONCE))
  {
    hide Mac, EncodeFrame, Delivered, LegalText;
    FramesLegal(hmac);
    FrameDelivers(AUTH_RESPONSE, [Text(ID), Blob(Mac(hmac))]);
    FrameDelivers(REGISTRATION, [Text(FIRMWARE), Text(BOARD)]);
    FrameDelivers(LED_APPLIED, [Blob(LED_NONCE)]);
  }

  predicate Delivers(e: Event, message: Message) {
    && e.KeypadFrame? && e.c == 0 && e.binary && e.env == ENV && 0 < |e.data| <= MAX_DEVICE_FRAME_SIZE
    && Delivered(e.data) == Some((CONFIGURATION_VERSION, message))
  }

  /** The keypad's connection, with what is pending and what is confirmed. */
  predicate Keypad(conn: Conn, registered: bool, pending: Option<Pending>, applied: Option<Leds>) {
    && conn.keypad && conn.open && conn.authenticated && conn.deviceId == ID && conn.version == CONFIGURATION_VERSION
    && (if registered then conn.receiver.False? && conn.controllerId == Str(ID) else conn.receiver.Unset?)
    && conn.pending == pending && conn.applied == applied
  }

  lemma Authenticates(hmac: Hmac)
    requires |Mac(hmac)| == 32
    ensures var s := Step(Step(START, Dropped(hmac)[0], hmac), Dropped(hmac)[1], hmac);
            && s.conns.Keys == {0} && s.live == [0] && s.store == map[ID := DEVICE]
               && Keypad(s.conns[0], false, None, None)
  {
    hide Delivered, EncodeFrame, Proof, Deliver;
    FramesDeliver(hmac);
    var e := Dropped(hmac);
    assert e[1] == KeypadSends(AUTH_RESPONSE, [Text(ID), Blob(Mac(hmac))]);
    var s := Step(START, e[0], hmac);
    var conn := With(NewConn(true).(challenge := Some(CHALLENGE)), Sent(AuthChallenge(CHALLENGE)));
    assert s.conns == map[0 := conn] && s.live == [];
    assert Step(s, e[1], hmac) == Authenticate(s, 0, CONFIGURATION_VERSION, ID, Mac(hmac), ENV, hmac);
  }

  ghost predicate Good(s: State, hmac: Hmac) {
    Inv(s, hmac) && LedViews.Agrees(s, ID) && LedViews.Unclaimed(s, ID)
  }

  lemma GoodStep(s: State, e: Event, hmac: Hmac)
    requires Good(s, hmac) && LedViews.Careful(s, e, ID)
    ensures Good(Step(s, e, hmac), hmac)
  {
    hide Inv, Step, LedViews.Agrees, LedViews.Unclaimed, LedViews.Careful;
    InvStep(s, e, hmac);
    LedViews.AgreesStep(s, e, hmac, ID);
    LedViews.KeepsOff(s, e, ID);
    LedViews.UnclaimedStep(s, e, hmac, ID);
  }

  lemma GoodStart(hmac: Hmac)
    ensures Good(START, hmac)
  {}

  lemma GoodOk(s: State, hmac: Hmac)
    requires Good(s, hmac)
    ensures Ok(s) && Base(s) && LedViews.Agrees(s, ID)
  {}

  /** Registering keeps the connection and leaves nothing pending or confirmed. */
  lemma EnrolKeeps(conn: Conn, m: Move)
    requires m.Enrol? && conn.keypad && conn.authenticated
    ensures Apply(conn, m).open == conn.open && Apply(conn, m).version == conn.version && Apply(conn, m).pending.None?
  {
    hide Encodable, Enrolled;
    var a := Enrolled(conn, m.version, m.firmware, m.hardware, m.at);
    var b := Accepting(a, m.firmware, m.accepted);
    var c := Asking(b, m.nonce);
    assert a.open == conn.open && a.version == conn.version && a.pending.None? by { EnrolledKeeps(conn, m); }
    assert b.open == a.open && b.version == a.version && b.pending == a.pending;
    assert c.open == a.open && c.version == a.version && c.pending == a.pending;
    assert Proposing(c, m.offer).open == a.open;
  }

  lemma EnrolledKeeps(conn: Conn, m: Move)
    requires m.Enrol?
    ensures var a := Enrolled(conn, m.version, m.firmware, m.hardware, m.at);
            && a.open == conn.open && a.version == conn.version && a.pending.None?
            && a.controllerId == Str(conn.deviceId) && a.receiver.False?
  {}

  lemma RegistersFirst(s: State, hmac: Hmac)
    requires Good(s, hmac) && s.conns.Keys == {0} && s.live == [0] && s.store == map[ID := DEVICE]
    requires Keypad(s.conns[0], false, None, None)
    requires Delivers(REGISTERS, Registration(FIRMWARE, BOARD))
    ensures var t := Step(s, REGISTERS, hmac);
            && t.conns.Keys == {0} && (forall k :: k in t.live <==> k == 0) && t.store == s.store
            && Keypad(t.conns[0], true, None, None)
  {
    hide RegisterKeypad, Apply, Evicted, Hears, PresenceOf, Enrolled, Good, Delivered, EncodeFrame, Base, Unique;
    var conn := s.conns[0];
    var m := RegistrationMove(s, conn, CONFIGURATION_VERSION, FIRMWARE, BOARD, ENV);
    GoodOk(s, hmac);
    assert Step(s, REGISTERS, hmac) == RegisterKeypad(s, 0, CONFIGURATION_VERSION, FIRMWARE, BOARD, ENV);
    RegisterKeypadEffect(s, 0, CONFIGURATION_VERSION, FIRMWARE, BOARD, ENV);
    InstallationEvidence.EnrolFields(conn, m);
    InstallationEvidence.EnrolledNote(conn, CONFIGURATION_VERSION, FIRMWARE, BOARD, ENV.at);
    EnrolKeeps(conn, m);
    LedViews.EnrolLeds(conn, m);
    EnrolledKeeps(conn, m);
    forall k ensures !Evicted(s, 0, Dispatched(conn, FIRMWARE, BOARD), 0) && (k in s.live ==> k == 0) {
      NeverEvictsItself(s, 0, Dispatched(conn, FIRMWARE, BOARD));
    }
  }

  /** The keypad and one browser. */
  ghost predicate Pair(s: State, receiving: bool, pending: Option<Pending>, applied: Option<Leds>) {
    && s.conns.Keys == {0, 1} && (forall k :: k in s.live <==> k == 0 || k == 1)
    && Keypad(s.conns[0], true, pending, applied)
    && Talking(s, 1, false) && !s.conns[1].authenticated && (s.conns[1].receiver.True? <==> receiving)
       && !s.conns[1].receiver.False?
  }

  lemma BrowserOpens(s: State, hmac: Hmac)
    requires s.conns.Keys == {0} && (forall k :: k in s.live <==> k == 0) && Keypad(s.conns[0], true, None, None)
    ensures var t := Step(s, OpenBrowser(1), hmac); Pair(t, false, None, None) && t.store == s.store
  {
    hide Keypad;
    var t := Step(s, OpenBrowser(1), hmac);
    assert t.conns == s.conns[1 := NewConn(false)] && t.live == s.live + [1];
  }

  lemma KeypadFields(a: Conn, b: Conn, pending: Option<Pending>, applied: Option<Leds>)
    requires Keypad(a, true, pending, applied)
    requires SameRole(a, b) && b.open == a.open && b.version == a.version
    ensures Keypad(b, true, b.pending, b.applied)
  {}

  lemma BrowserJoins(s: State, hmac: Hmac)
    requires Pair(s, false, None, None) && Base(s)
    ensures var t := Step(s, BrowserRegistration(1, RECEIVER), hmac); Pair(t, true, None, None) && t.store == s.store
  {
    hide Register, Hears, Snapshot, Controllers, Keypad, Base;
    RegisterReceiverEffect(s, 1, RECEIVER);
  }

  lemma CommandSent(s: State, hmac: Hmac)
    requires Pair(s, true, None, None) && Base(s)
    ensures var t := Step(s, BrowserConfiguration(1, Str(ID), Some(LEDS), [LED_NONCE]), hmac);
            Pair(t, true, Some(Pending(LED_NONCE, LEDS)), None) && t.store == s.store
  {
    hide Command, Hears, Apply, Base;
    var targets := Named(s, Controllers(s), Str(ID));
    assert HasFlag(s, 0, False) && 0 in targets && forall k :: k in targets ==> k == 0;
    var t, note := Command(s, 0, LEDS, LED_NONCE), LedState(Str(ID), None);
    OnlyOnce(s, targets);
    CommandEffect(s, 0, LEDS, LED_NONCE);
    LightKeeps(s.conns[0]);
    SilentRole(s, 1, note);
  }

  lemma LightKeeps(conn: Conn)
    ensures var r := Apply(conn, Light(LED_NONCE, LEDS));
            && SameRole(conn, r) && r.open == conn.open && r.version == conn.version
            && r.pending == Some(Pending(LED_NONCE, LEDS)) && r.applied.None?
  {}

  lemma OnlyOnce(s: State, targets: seq<ConnId>)
    requires 0 in targets && (forall k :: k in targets ==> k == 0) && 0 in s.conns
    requires s.conns[0].keypad && s.conns[0].version == CONFIGURATION_VERSION
    requires Base(s)
    ensures Configure(s, targets, Some(LEDS), [LED_NONCE]) == Command(s, 0, LEDS, LED_NONCE)
  {
    hide Command, Base, Apply;
    CommandEffect(s, 0, LEDS, LED_NONCE);
    LightKeeps(s.conns[0]);
    assert targets[0] in targets;
    var t := Command(s, 0, LEDS, LED_NONCE);
    assert |targets| > 1 ==> targets[1..][0] == targets[1] && targets[1] in targets;
    assert Configure(t, targets[1..], Some(LEDS), []) == t;
    assert [LED_NONCE][1..] == [];
  }

  lemma CommandAcknowledged(s: State, e: Event, hmac: Hmac)
    requires Pair(s, true, Some(Pending(LED_NONCE, LEDS)), None) && Base(s) && Delivers(e, LedApplied(LED_NONCE))
    ensures var t := Step(s, e, hmac); Pair(t, true, None, Some(LEDS)) && t.store == s.store
  {
    hide AcknowledgeLeds, Apply, Hears, Base, Delivered, Broadcast;
    var conn, m := s.conns[0], Acknowledge(CONFIGURATION_VERSION, LED_NONCE, ENV.at);
    var note := LedState(Str(ID), Some(LEDS));
    AcknowledgeEffect(s, 0, CONFIGURATION_VERSION, LED_NONCE, ENV);
    AcknowledgeKeeps(conn, ENV.at);
    var put := Put(s, 0, Apply(conn, m));
    BroadcastEffect(put, note);
    SilentRole(put, 1, note);
    KeypadDeaf(put, 0, note);
  }

  lemma AcknowledgeKeeps(conn: Conn, at: int)
    requires Keypad(conn, true, Some(Pending(LED_NONCE, LEDS)), None)
    ensures Keypad(Apply(conn, Acknowledge(CONFIGURATION_VERSION, LED_NONCE, at)), true, None, Some(LEDS))
    ensures HasId(conn)
  {}

  /** The state after the first `i` events of the run. */
  function At(i: nat, hmac: Hmac): State
    requires i <= 9
  {
    Run(START, Dropped(hmac)[..i], hmac)
  }

  lemma AtNext(i: nat, hmac: Hmac)
    requires i < 9
    ensures At(0, hmac) == START && At(i + 1, hmac) == Step(At(i, hmac), Dropped(hmac)[i], hmac)
    ensures At(9, hmac) == Run(START, Dropped(hmac), hmac)
  {
    hide Step, Mac, KeypadSends;
    RunNext(START, Dropped(hmac), i, hmac);
    assert Dropped(hmac)[..9] == Dropped(hmac) && Dropped(hmac)[..0] == [];
  }

  /** No registration frame of the first eight events is forgotten. */
  lemma AllCareful(s: State, i: nat, hmac: Hmac)
    requires i < 8 && |Mac(hmac)| == 32 && (i == 2 ==> 0 in s.conns && !LedViews.Forgets(s, 0))
    ensures LedViews.Careful(s, Dropped(hmac)[i], ID)
  {
    hide Mac, Delivered, EncodeFrame, LedViews.Forgets;
    FramesDeliver(hmac);
    var e := Dropped(hmac);
    assert e[1] == KeypadSends(AUTH_RESPONSE, [Text(ID), Blob(Mac(hmac))])
           && e[6] == KeypadSends(LED_APPLIED, [Blob(LED_NONCE)]);
  }

  lemma Remembered(s: State)
    requires 0 in s.conns && Keypad(s.conns[0], false, None, None) && s.store == map[ID := DEVICE]
    ensures !LedViews.Forgets(s, 0)
  {}

  lemma GoodUpTo(hmac: Hmac)
    requires |Mac(hmac)| == 32
    ensures Good(At(2, hmac), hmac)
    ensures var s := At(2, hmac);
            s.conns.Keys == {0} && s.live == [0] && s.store == map[ID := DEVICE]
                && Keypad(s.conns[0], false, None, None)
  {
    hide Step, Good, Keypad, Mac, LedViews.Careful, At, Dropped;
    AtNext(0, hmac);
    AtNext(1, hmac);
    GoodStart(hmac);
    AllCareful(START, 0, hmac);
    GoodStep(START, Dropped(hmac)[0], hmac);
    AllCareful(At(1, hmac), 1, hmac);
    GoodStep(At(1, hmac), Dropped(hmac)[1], hmac);
    Authenticates(hmac);
  }

  /** One more of the first eight events. */
  lemma GoodAt(i: nat, hmac: Hmac)
    requires i < 8 && |Mac(hmac)| == 32 && Good(At(i, hmac), hmac)
    requires i == 2 ==> 0 in At(i, hmac).conns && !LedViews.Forgets(At(i, hmac), 0)
    ensures Good(At(i + 1, hmac), hmac) && At(i + 1, hmac) == Step(At(i, hmac), Dropped(hmac)[i], hmac)
    ensures Base(At(i, hmac))
  {
    hide Step, Good, Mac, LedViews.Careful, At, Dropped, LedViews.Forgets, Base;
    AtNext(i, hmac);
    AllCareful(At(i, hmac), i, hmac);
    GoodStep(At(i, hmac), Dropped(hmac)[i], hmac);
    GoodOk(At(i, hmac), hmac);
  }

  lemma DroppedEvents(hmac: Hmac)
    ensures var e := Dropped(hmac);
            && e[2] == REGISTERS && e[3] == OpenBrowser(1) && e[4] == BrowserRegistration(1, RECEIVER)
            && e[5] == BrowserConfiguration(1, Str(ID), Some(LEDS), [LED_NONCE])
            && e[6] == KeypadSends(LED_APPLIED, [Blob(LED_NONCE)]) && e[7] == Reloaded(map[]) && e[8] == REGISTERS
  {
    hide KeypadSends, Mac;
  }

  /** The keypad shows confirmed colours and a receiver watches. */
  lemma WhileShown(hmac: Hmac)
    requires |Mac(hmac)| == 32
    ensures Good(At(7, hmac), hmac) && Pair(At(7, hmac), true, None, Some(LEDS))
  {
    hide Step, Good, Keypad, Pair, Mac, At, Dropped, Delivers, LedViews.Forgets, KeypadSends, REGISTERS, Base;
    DroppedEvents(hmac);
    FramesDeliver(hmac);
    GoodUpTo(hmac);
    Remembered(At(2, hmac));
    GoodAt(2, hmac);
    RegistersFirst(At(2, hmac), hmac);
    GoodAt(3, hmac);
    BrowserOpens(At(3, hmac), hmac);
    GoodAt(4, hmac);
    BrowserJoins(At(4, hmac), hmac);
    GoodAt(5, hmac);
    CommandSent(At(5, hmac), hmac);
    GoodAt(6, hmac);
    CommandAcknowledged(At(6, hmac), Dropped(hmac)[6], hmac);
  }

  /** Then the credentials are empty. */
  lemma BeforeTheEnd(hmac: Hmac)
    requires |Mac(hmac)| == 32
    ensures Good(At(8, hmac), hmac) && Pair(At(8, hmac), true, None, Some(LEDS)) && At(8, hmac).store == map[]
  {
    hide Step, Good, Keypad, Pair, Mac, At, Dropped, LedViews.Forgets, KeypadSends, REGISTERS, Base;
    DroppedEvents(hmac);
    WhileShown(hmac);
    GoodAt(7, hmac);
    Emptied(At(7, hmac), hmac);
  }

  lemma Emptied(s: State, hmac: Hmac)
    requires Pair(s, true, None, Some(LEDS))
    ensures var t := Step(s, Reloaded(map[]), hmac); Pair(t, true, None, Some(LEDS)) && t.store == map[]
  {}

  lemma LastFrame(s: State, hmac: Hmac)
    requires Good(s, hmac) && Pair(s, true, None, Some(LEDS)) && s.store == map[]
    requires Delivers(REGISTERS, Registration(FIRMWARE, BOARD))
    ensures !LedViews.Agrees(Step(s, REGISTERS, hmac), ID)
  {
    hide RegisterKeypad, Good, LedViews.Agrees, Delivered, EncodeFrame, Base, Unique;
    GoodOk(s, hmac);
    assert Registered(s, 0) && LedViews.Forgets(s, 0) && HasFlag(s, 1, True);
    LedViews.RegistrationAgreesIff(s, 0, CONFIGURATION_VERSION, FIRMWARE, BOARD, ENV, hmac, 1);
    assert Step(s, REGISTERS, hmac) == RegisterKeypad(s, 0, CONFIGURATION_VERSION, FIRMWARE, BOARD, ENV);
  }

  /** On this run the receiver goes on showing the colours that the server has forgotten. */
  lemma DroppedRun(hmac: Hmac)
    requires |Mac(hmac)| == 32
    ensures LedViews.Agrees(Run(START, Dropped(hmac)[..8], hmac), ID)
    ensures !LedViews.Agrees(Run(START, Dropped(hmac), hmac), ID)
  {
    hide Step, Run, Good, LedViews.Agrees, Pair, Mac, Delivers, Dropped, KeypadSends, REGISTERS, Ok, Base;
    BeforeTheEnd(hmac);
    GoodOk(At(8, hmac), hmac);
    AtNext(8, hmac);
    DroppedEvents(hmac);
    FramesDeliver(hmac);
    LastFrame(At(8, hmac), hmac);
  }

  // ---- A browser under a keypad's id ----

  /** While the receiver shows the keypad's colours, another browser registers as a controller under its id. */
  function Overwritten(hmac: Hmac): seq<Event> {
    Dropped(hmac)[..7] + [OpenBrowser(2), BrowserRegistration(2, ControllerReg(ID))]
  }

  lemma OverwrittenSteps(hmac: Hmac)
    ensures Run(START, Overwritten(hmac)[..8], hmac) == Step(At(7, hmac), OpenBrowser(2), hmac)
    ensures Run(START, Overwritten(hmac), hmac) ==
            Step(Step(At(7, hmac), OpenBrowser(2), hmac), BrowserRegistration(2, ControllerReg(ID)), hmac)
  {
    hide Step, Mac, KeypadSends, Run;
    var e := Overwritten(hmac);
    RunNext(START, e, 7, hmac);
    RunNext(START, e, 8, hmac);
    assert e[..9] == e && e[..7] == Dropped(hmac)[..7] && e[7] == OpenBrowser(2)
           && e[8] == BrowserRegistration(2, ControllerReg(ID));
  }

  lemma Claimed(s: State, hmac: Hmac)
    requires Good(s, hmac) && Pair(s, true, None, Some(LEDS))
    ensures var t := Step(s, OpenBrowser(2), hmac);
            && Good(t, hmac) && LedViews.Parts(t, BrowserRegistration(2, ControllerReg(ID)), ID)
  {
    hide Good;
    GoodStep(s, OpenBrowser(2), hmac);
    var t := Step(s, OpenBrowser(2), hmac);
    assert t.conns == s.conns[2 := NewConn(false)] && t.live == s.live + [2];
    assert Registered(t, 0) && HasFlag(t, 1, True);
  }

  /** On this run the receiver no longer shows the colours that the keypad's server has confirmed. */
  lemma OverwrittenRun(hmac: Hmac)
    requires |Mac(hmac)| == 32
    ensures LedViews.Agrees(Run(START, Overwritten(hmac)[..8], hmac), ID)
    ensures !LedViews.Agrees(Run(START, Overwritten(hmac), hmac), ID)
  {
    hide Step, Run, LedViews.Agrees, Pair, Mac, Dropped, Overwritten, Inv, LedViews.Parts;
    WhileShown(hmac);
    Claimed(At(7, hmac), hmac);
    OverwrittenSteps(hmac);
    LedViews.AgreesStepExactly(Step(At(7, hmac), OpenBrowser(2), hmac), BrowserRegistration(2, ControllerReg(ID)), hmac,
        ID);
  }
}
