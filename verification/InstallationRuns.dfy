/** When a wait for an installation must resolve, and a run on which one does. */
module InstallationRuns {
  import opened Prelude
  import Credentials
  import opened DeviceAuth
  import Utf8
  import opened Protocol
  import opened Sessions
  import opened SessionRegistry
  import opened SessionRuns
  import opened InstallationEvidence
  import opened SessionAnswers
  import LedViews
  import opened FailingRuns

  /** A browser that is told what the server tells its receivers. */
  predicate Watches(s: State, r: ConnId) {
    r in s.conns && r in s.live && s.conns[r].receiver.True?
  }

  /** The record a watching browser keeps of the keypad with this id. */
  function Record(s: State, r: ConnId, id: Bytes): Option<Current>
    requires r in s.conns
  {
    Fold(s.conns[r].trace, id)
  }

  /** Once the record satisfies the wait, the wait resolves. */
  lemma SatisfiedResolves(s: State, r: ConnId, w: Wait, limit: int)
    requires r in s.conns && Satisfied(w, Record(s, r, w.id), limit)
    ensures Resolves(w, s.conns[r].trace, Record(s, r, w.id).value)
  {
    hide Fold;
    var trace := s.conns[r].trace;
    assert trace[..|trace|] == trace;
  }

  /** After a keypad's registration every watching browser holds its firmware and hardware, and no proof. */
  lemma RegistrationNoticed(
      s: State, e: Event, c: ConnId, firmware: Bytes, hardware: Bytes, hmac: Hmac, r: ConnId)
    requires Ok(s) && Talking(s, c, true) && s.conns[c].authenticated && s.conns[c].deviceId in s.store
    requires Brings(e, c, s.conns[c].version, Registration(firmware, hardware)) && Watches(s, r)
    ensures var t := Step(s, e, hmac);
            && Watches(t, r)
            && Record(t, r, s.conns[c].deviceId) ==
               Some(Current(OrNull(Some(hardware)), OrNull(Some(firmware)), None))
  {
    hide Step, Ok, Delivered, Answers;
    RegistrationAnswered(s, e, c, firmware, hardware, hmac);
    var note := Presence(Str(s.conns[c].deviceId), Connected,
        Meta(true, OrNull(Some(firmware)), OrNull(Some(hardware)), None, None));
    FoldWith(s.conns[r].trace, Told(note), s.conns[c].deviceId);
  }

  /** After a heeded report a browser that holds a record of the keypad holds the proof with it. */
  lemma ReportNoticed(s: State, e: Event, c: ConnId, nonce: Bytes, digest: Bytes, hmac: Hmac, r: ConnId)
    requires Ok(s) && Speaks(s, c, 3) && s.conns[c].controllerId.Str? && s.conns[c].query == Some(nonce)
    requires Brings(e, c, 3, ConfigurationReport(nonce, digest)) && Watches(s, r)
    requires Record(s, r, s.conns[c].deviceId).Some?
    ensures var t, id := Step(s, e, hmac), s.conns[c].deviceId;
            && Watches(t, r)
            && Record(t, r, id) == Some(Record(s, r, id).value.(
                 verified := Some(Verified(Credentials.ToHex(digest), e.env.at))))
  {
    hide Step, Ok, Delivered, Credentials.ToHex, Fold;
    assert r != c by { Flagless(s, c); }
    ReportRecorded(s, e, c, nonce, digest, hmac);
    var note := ConfigurationState(Str(s.conns[c].deviceId), Verified(Credentials.ToHex(digest), e.env.at));
    FoldWith(s.conns[r].trace, Told(note), s.conns[c].deviceId);
  }

  /**
   * A browser that becomes a receiver holds at once what the server knows of a keypad: its firmware and hardware, and
   * the proof it has given, provided no browser is listed behind it under its id.
   */
  lemma {:induction false} SnapshotNoticed(s: State, ids: seq<ConnId>, trace: seq<Entry>, j: int, id: Bytes)
    requires LedViews.LastOf(s, ids, j, id) && s.conns[ids[j]].authenticated
    ensures var conn := s.conns[ids[j]];
            Fold(trace + Snapshot(s, ids), id) ==
            Some(Current(OrNull(conn.hardware), OrNull(conn.firmware), conn.verified))
    decreases |ids|
  {
    var front, k := ids[..|ids| - 1], ids[|ids| - 1];
    var more := trace + Snapshot(s, front);
    hide Fold;
    if k in s.conns {
      assert trace + Snapshot(s, ids) == more + [Told(PresenceOf(s.conns[k], Connected))];
      FoldWith(more, Told(PresenceOf(s.conns[k], Connected)), id);
    } else {
      assert trace + Snapshot(s, ids) == more;
    }
    if j < |front| {
      assert LedViews.LastOf(s, front, j, id);
      SnapshotNoticed(s, front, trace, j, id);
    }
  }

  lemma JoinNoticed(s: State, c: ConnId, reg: Reg, hmac: Hmac, j: int, id: Bytes)
    requires Ok(s) && Talking(s, c, false) && reg.receiver.True?
    requires var put := Put(s, c, Registering(s.conns[c], reg));
             LedViews.LastOf(put, Controllers(put), j, id) && put.conns[Controllers(put)[j]].authenticated
    ensures var t, conn := Step(s, BrowserRegistration(c, reg), hmac),
            s.conns[Controllers(Put(s, c, Registering(s.conns[c], reg)))[j]];
            && Watches(t, c)
            && Record(t, c, id) == Some(Current(OrNull(conn.hardware), OrNull(conn.firmware), conn.verified))
  {
    hide Fold, Controllers, Snapshot, Register, LedViews.LastOf;
    var put := Put(s, c, Registering(s.conns[c], reg));
    var ids := Controllers(put);
    TalkingBrowser(s, c);
    RegisterReceiverEffect(s, c, reg);
    assert ids[j] != c by { NotItself(s, put, ids, j, id); }
    SnapshotNoticed(put, ids, s.conns[c].trace + [Joined], j, id);
  }

  lemma NotItself(s: State, put: State, ids: seq<ConnId>, j: int, id: Bytes)
    requires LedViews.LastOf(put, ids, j, id) && put.conns[ids[j]].authenticated
    requires forall k :: k in put.conns && !put.conns[k].keypad ==> !put.conns[k].authenticated
    ensures 0 <= j < |ids| && ids[j] in put.conns && put.conns[ids[j]].keypad
  {}

  /** When the last controller of an id leaves, every browser that goes on watching drops its record. */
  lemma DepartureNoticed(s: State, c: ConnId, hmac: Hmac, id: Bytes, r: ConnId)
    requires Ok(s) && c in s.live && c in s.conns && Last(s, c) && s.conns[c].controllerId == Str(id)
    requires Watches(s, r) && r != c
    ensures var t := Step(s, Closed(c), hmac); Watches(t, r) && Record(t, r, id).None?
  {
    hide Step, Ok, Last, Fold;
    EndAnnounced(s, c, hmac);
    FoldWith(s.conns[r].trace, Told(Presence(s.conns[c].controllerId, Disconnected, MetaOf(s.conns[c]))), id);
  }

  /** So it does when a browser registers as a controller under the id: it has proved nothing. */
  lemma ImpostorNoticed(s: State, c: ConnId, reg: Reg, hmac: Hmac, id: Bytes, r: ConnId)
    requires Ok(s) && Talking(s, c, false) && !IsTruthy(reg.receiver) && reg.id == Str(id)
    requires Watches(s, r) && r != c
    ensures var t := Step(s, BrowserRegistration(c, reg), hmac); Watches(t, r) && Record(t, r, id).None?
  {
    hide Register, Fold, Unique;
    TalkingBrowser(s, c);
    RegisterControllerEffect(s, c, reg);
    EvictsNobody(s, c, reg, r);
    var note := PresenceOf(Registering(s.conns[c], reg), reg.status);
    FoldWith(s.conns[r].trace, Told(note), id);
  }

  // ---- Every installation resolves ----

  /** A keypad connects, proves itself, registers and reports, each frame in version 3. */
  datatype Installing = Installing(open: Event, answer: Event, registration: Event, report: Event)

  /**
   * The keypad `c` does what a freshly installed keypad does: with the secret that the credentials hold for the awaited
   * id, the awaited firmware on the keypad's hardware, and the awaited digest in answer to the query it was sent.
   */
  predicate Installs(i: Installing, c: ConnId, w: Wait, digest: Bytes, hmac: Hmac) {
    && i.open.OpenKeypad? && i.open.c == c && w.id != [] && w.firmware != [] && Credentials.ToHex(digest) == w.digest
    && i.answer.KeypadFrame? && i.answer.env.loaded.Some? && w.id in i.answer.env.loaded.value
    && Brings(i.answer, c, 3, AuthResponse(w.id,
         Proof(hmac, i.answer.env.loaded.value[w.id].secret, w.id, i.open.nonce)))
    && Brings(i.registration, c, 3, Registration(w.firmware, KEYPAD_HARDWARE))
    && Brings(i.report, c, 3, ConfigurationReport(i.registration.env.nonce, digest))
    && i.report.env.at >= w.notBefore
  }

  function After(s: State, i: Installing, hmac: Hmac): State {
    Step(Step(Step(Step(s, i.open, hmac), i.answer, hmac), i.registration, hmac), i.report, hmac)
  }

  lemma Opened(s: State, c: ConnId, nonce: Bytes, hmac: Hmac, r: ConnId)
    requires Inv(s, hmac) && c !in s.conns && Watches(s, r)
    ensures var t := Step(s, OpenKeypad(c, nonce), hmac);
            && Ok(t) && Talking(t, c, true) && !t.conns[c].authenticated && t.conns[c].challenge == Some(nonce)
            && Watches(t, r)
  {
    hide Inv, Step, Ok, Proof;
    InvStep(s, OpenKeypad(c, nonce), hmac);
    assert Ok(Step(s, OpenKeypad(c, nonce), hmac)) by { InvProofs(Step(s, OpenKeypad(c, nonce), hmac), hmac); }
    OpenedFields(s, c, nonce, hmac, r);
  }

  lemma OpenedFields(s: State, c: ConnId, nonce: Bytes, hmac: Hmac, r: ConnId)
    requires c !in s.conns && Watches(s, r)
    ensures var t := Step(s, OpenKeypad(c, nonce), hmac);
            && Talking(t, c, true) && !t.conns[c].authenticated && t.conns[c].challenge == Some(nonce) && Watches(t, r)
  {}

  lemma Named(text: string)
    requires |text| > 0
    ensures OrNull(Some(Chars(text))) == Some(Chars(text))
  {}

  /**
   * Whatever has happened before: if a browser watches while a keypad is installed as awaited, its wait resolves with
   * the awaited hardware, firmware and digest and the time of the report.
   */
  lemma InstallationResolves(s: State, i: Installing, c: ConnId, r: ConnId, w: Wait, digest: Bytes, hmac: Hmac)
    requires Inv(s, hmac) && c !in s.conns && Watches(s, r) && Installs(i, c, w, digest, hmac)
    ensures var t := After(s, i, hmac);
            && r in t.conns
            && Resolves(w, t.conns[r].trace,
                 Current(Some(KEYPAD_HARDWARE), Some(w.firmware), Some(Verified(w.digest, i.report.env.at))))
  {
    hide Inv, Step, Ok, Proof, Delivered, Credentials.ToHex, Fold, Resolves, Answers;
    var s1 := Step(s, i.open, hmac);
    Opened(s, c, i.open.nonce, hmac, r);
    var s2 := Step(s1, i.answer, hmac);
    ProofAccepted(s1, i.answer, c, 3, w.id,
        Proof(hmac, i.answer.env.loaded.value[w.id].secret, w.id, i.open.nonce), hmac);
    assert Ok(s1) && Ok(s2) by {
      InvStep(s, i.open, hmac);
      InvStep(s1, i.answer, hmac);
      InvProofs(s1, hmac);
      InvProofs(s2, hmac);
    }
    assert r != c && Watches(s2, r);
    var s3 := Step(s2, i.registration, hmac);
    RegistrationAnswered(s2, i.registration, c, w.firmware, KEYPAD_HARDWARE, hmac);
    RegistrationNoticed(s2, i.registration, c, w.firmware, KEYPAD_HARDWARE, hmac, r);
    assert Ok(s3) by {
      InvStep(s, i.open, hmac);
      InvStep(s1, i.answer, hmac);
      InvStep(s2, i.registration, hmac);
      InvProofs(s3, hmac);
    }
    ReportNoticed(s3, i.report, c, i.registration.env.nonce, digest, hmac, r);
    assert OrNull(Some(KEYPAD_HARDWARE)) == Some(KEYPAD_HARDWARE) by { Named("mindflayer-keypad-v1"); }
    SatisfiedResolves(Step(s3, i.report, hmac), r, w, i.report.env.at);
  }

  // ---- One such run from the start of the server ----

  const DIGEST: Bytes := Repeat(3, 32)
  const AWAITED := Wait(ID, FIRMWARE, Credentials.ToHex(DIGEST), 1000)
  const WATCHES: seq<Event> := [OpenBrowser(1), BrowserRegistration(1, RECEIVER)]

  function Example(hmac: Hmac): Installing {
    Installing(OpenKeypad(0, CHALLENGE), KeypadSends(AUTH_RESPONSE, [Text(ID), Blob(Mac(hmac))]),
        KeypadSends(REGISTRATION, [Text(FIRMWARE), Text(KEYPAD_HARDWARE)]),
        KeypadSends(CONFIGURATION_REPORT, [Blob(QUERY), Blob(DIGEST)]))
  }

  lemma PlainText(text: Bytes, max: nat)
    requires 0 < |text| <= max && forall i :: 0 <= i < |text| ==> 0x20 <= text[i] < 0x80
    ensures LegalText(text, max) && Utf8.Decoded(text) == text
  {
    Utf8.AsciiIsValid(text);
  }

  lemma FrameBrings(kind: nat, items: seq<Item>)
    requires Legal(kind, CONFIGURATION_VERSION, items)
    ensures Brings(KeypadSends(kind, items), 0, 3, Deliver(kind, items))
  {
    hide EncodeFrame, Decode, Deliver, Legal;
    FrameDelivers(kind, items);
  }

  lemma HardwareText()
    ensures LegalText(KEYPAD_HARDWARE, 64) && Utf8.Decoded(KEYPAD_HARDWARE) == KEYPAD_HARDWARE
  {
    var text := "mindflayer-keypad-v1";
    assert forall i :: 0 <= i < |text| ==> 0x20 <= text[i] as int < 0x80;
    PlainText(KEYPAD_HARDWARE, 64);
  }

  lemma ExampleInstalls(hmac: Hmac)
    requires |Mac(hmac)| == 32
    ensures Installs(Example(hmac), 0, AWAITED, DIGEST, hmac)
  {
    hide LegalText, EncodeFrame, Delivered, Proof, Credentials.ToHex;
    PlainText(ID, 64);
    PlainText(FIRMWARE, 47);
    HardwareText();
    FrameBrings(AUTH_RESPONSE, [Text(ID), Blob(Mac(hmac))]);
    FrameBrings(REGISTRATION, [Text(FIRMWARE), Text(KEYPAD_HARDWARE)]);
    FrameBrings(CONFIGURATION_REPORT, [Blob(QUERY), Blob(DIGEST)]);
  }

  lemma BrowserWatches(hmac: Hmac)
    ensures var s := Run(START, WATCHES, hmac); Inv(s, hmac) && 0 !in s.conns && Watches(s, 1)
  {
    var a := Step(START, WATCHES[0], hmac);
    assert a.conns == map[1 := NewConn(false)] && a.live == [1];
    var b := Step(a, WATCHES[1], hmac);
    assert Run(START, WATCHES, hmac) == b by {
      hide Step;
      RunNext(START, WATCHES, 0, hmac);
      RunNext(START, WATCHES, 1, hmac);
      assert WATCHES[..2] == WATCHES && WATCHES[..0] == [];
    }
    InvRun(START, WATCHES, hmac);
  }

  /** A browser opens and watches, a keypad is installed, and the wait for it resolves. */
  lemma ResolvedRun(hmac: Hmac)
    requires |Mac(hmac)| == 32
    ensures var t := After(Run(START, WATCHES, hmac), Example(hmac), hmac);
            && 1 in t.conns
            && Resolves(AWAITED, t.conns[1].trace,
                 Current(Some(KEYPAD_HARDWARE), Some(FIRMWARE), Some(Verified(Credentials.ToHex(DIGEST), 1000))))
  {
    hide Run, Inv, Example, Installs, After, Resolves, Mac;
    BrowserWatches(hmac);
    ExampleInstalls(hmac);
    InstallationResolves(Run(START, WATCHES, hmac), Example(hmac), 0, 1, AWAITED, DIGEST, hmac);
    ReportTime(hmac);
  }

  lemma ReportTime(hmac: Hmac)
    ensures Example(hmac).report.env.at == 1000
  {}
}
