/** Preparing an installation for a connected keypad: src/provisioning/installation.js. */
module Installation {
  import opened Prelude
  import opened Credentials
  import Crc
  import Format
  import Utf8
  import opened Storage

  datatype Settings = Settings(ssid: Bytes, psk: Bytes, serverHost: Bytes, serverPort: int)

  /** The random values of one preparation: a UUID without dashes, and a secret. */
  datatype Random = Random(uuid: Bytes, secret: Bytes)

  predicate ValidRandom(random: Random) {
    |random.secret| == 32 && |random.uuid| == 32 && forall i :: 0 <= i < 32 ==> HexDigit(random.uuid[i])
  }

  datatype Action = Preserve | Initial | Adopt

  datatype Credential = Credential(id: Bytes, secret: Bytes)

  datatype Plan = Plan(action: Action, deviceId: Bytes, newCredential: Option<Credential>, envelope: Bytes,
      digest: Bytes)

  const ID_PREFIX: Bytes := [0x6b, 0x65, 0x79, 0x70, 0x61, 0x64, 0x2d] // keypad-

  /** The installation's environment: key parser, digest function, stored credentials and the server's public key. */
  datatype Server = Server(isRsa: Format.KeyParser, sha256: Bytes -> Bytes, devices: Devices, publicKey: Bytes)

  function PlannedValues(server: Server, c: Classification, settings: Settings, random: Random): Format.Values {
    var preserve := c.Owned? && c.isLocal;
    Format.Values(
      if preserve then c.record.values.deviceId else ID_PREFIX + random.uuid,
      if preserve then c.record.values.deviceSecret else random.secret,
      settings.ssid, settings.psk, settings.serverHost, settings.serverPort, server.publicKey,
      preserve && c.record.values.serialDebug)
  }

  /** What `prepareInstallation` returns, or `None` where it throws; `adopt` is a boolean by then. */
  function Prepare(server: Server, flash: Flash, settings: Settings, adopt: bool, random: Random): Option<Plan> {
    var c :- Classify(server.isRsa, flash.a, flash.b, server.devices, server.publicKey);
    :- Need(!(c.Unconfigured? && c.selection.Invalid?));
    :- Need(!(c.Owned? && !c.isLocal && !adopt));
    var preserve := c.Owned? && c.isLocal;
    var values := PlannedValues(server, c, settings, random);
    :- Need(preserve || values.deviceId !in server.devices);
    var payload :- Format.EncodePayload(server.isRsa, values);
    var envelope := Format.Envelope(payload);
    Some(Plan(
           if preserve then Preserve else if c.Unconfigured? then Initial else Adopt,
           values.deviceId,
           if preserve then None else Some(Credential(values.deviceId, ToHex(values.deviceSecret))),
           envelope,
           server.sha256(envelope)))
  }

  // ---- Refusals ----

  /** Damaged flash is never taken for blank, and a foreign keypad never planned for without adoption. */
  lemma RefusedWithoutConsent(server: Server, flash: Flash, settings: Settings, adopt: bool, random: Random)
    requires Prepare(server, flash, settings, adopt, random).Some?
    ensures var c := Classify(server.isRsa, flash.a, flash.b, server.devices, server.publicKey);
            && c.Some?
            && (c.value.Unconfigured? ==> c.value.selection.Blank? && Erased(flash.a) && Erased(flash.b))
            && (c.value.Owned? && !c.value.isLocal ==> adopt)
  {
    hide Format.EncodePayload, ReadRecord;
  }

  // ---- The loop closes ----

  /** Storing the envelope's payload makes it the selected record of the flash. */
  predicate Delivered(isRsa: Format.KeyParser, envelope: Bytes, flash: Flash) {
    && Readable(flash) && |envelope| >= 11
    && var s := Select(isRsa, flash.a, flash.b);
       s.Configured? && Format.DecodePayload(isRsa, envelope[7..|envelope| - 4]) == Some(s.record.values)
  }

  /** The credentials after the plan's new one, if any, is registered. */
  function Registered(devices: Devices, plan: Plan): Option<Devices> {
    match plan.newCredential
    case None => Some(devices)
    case Some(credential) => Register(devices, credential.id, credential.secret)
  }

  lemma RandomIdValid(random: Random)
    requires ValidRandom(random)
    ensures ValidId(ID_PREFIX + random.uuid)
  {
    var id := ID_PREFIX + random.uuid;
    forall i | 1 <= i < |id| ensures Alphanumeric(id[i]) || id[i] in [0x2e, 0x5f, 0x2d] {
      if i >= 7 {
        assert id[i] == random.uuid[i - 7];
      }
    }
  }

  lemma RandomIdLegal(random: Random)
    requires ValidRandom(random)
    ensures Format.LegalText(ID_PREFIX + random.uuid, 64, false)
  {
    var id := ID_PREFIX + random.uuid;
    assert forall i :: 0 <= i < |id| ==> 1 <= id[i] < 0x80;
    Utf8.AsciiIsValid(id);
  }

  /** The flash can be planned for: it is ours, or blank, or foreign with consent; a new identity must be unused. */
  predicate Plannable(server: Server, flash: Flash, adopt: bool, random: Random)
    requires Readable(flash)
  {
    var s := Select(server.isRsa, flash.a, flash.b);
    if s.Configured? && Local(s.record.values, server.devices, server.publicKey) then true
    else ((if s.Configured? then adopt else Erased(flash.a) && Erased(flash.b))
          && ID_PREFIX + random.uuid !in server.devices)
  }

  predicate LegalSettings(settings: Settings) {
    && Format.LegalText(settings.ssid, 32, false) && Format.LegalText(settings.psk, 63, true)
    && Format.LegalText(settings.serverHost, 253, false) && 1 <= settings.serverPort <= 65535
  }

  predicate LegalKey(server: Server) {
    32 <= |server.publicKey| <= 512 && server.isRsa(server.publicKey)
  }

  /**
   * A plan exists exactly for whole sectors that can be planned for, with settings and a server key the format takes:
   * damaged flash is never taken for blank, and a foreign keypad is never planned for without adoption.
   */
  lemma PlanExactly(server: Server, flash: Flash, settings: Settings, adopt: bool, random: Random)
    requires ValidRandom(random)
    ensures Prepare(server, flash, settings, adopt, random).Some? <==>
            && Readable(flash) && Plannable(server, flash, adopt, random)
            && LegalSettings(settings) && LegalKey(server)
  {
    hide Format.LegalText, Format.Payload, Format.DecodePayload, Format.Envelope, Format.EncodePayload, ReadRecord,
         Newer;
    RandomIdLegal(random);
    if Readable(flash) {
      var c := Classify(server.isRsa, flash.a, flash.b, server.devices, server.publicKey).value;
      Format.EncodePayloadTotal(server.isRsa, PlannedValues(server, c, settings, random));
      if Select(server.isRsa, flash.a, flash.b).Configured? {
        SelectedIsValid(server.isRsa, flash);
      }
    }
  }

  /** A plan carries its identity: the envelope decodes to the planned values. */
  lemma PlanCarriesValues(server: Server, flash: Flash, settings: Settings, adopt: bool, random: Random)
    requires Prepare(server, flash, settings, adopt, random).Some?
    ensures var plan := Prepare(server, flash, settings, adopt, random).value;
            var c := Classify(server.isRsa, flash.a, flash.b, server.devices, server.publicKey).value;
            && |plan.envelope| >= 11
            && Format.VerifyEnvelope(server.isRsa, plan.envelope)
            && Format.DecodePayload(server.isRsa, plan.envelope[7..|plan.envelope| - 4])
               == Some(PlannedValues(server, c, settings, random))
  {
    hide Format.Valid, Format.VerifyEnvelope, Format.DecodePayload, Format.Envelope, Format.Payload, Classify;
    var c := Classify(server.isRsa, flash.a, flash.b, server.devices, server.publicKey).value;
    var values := PlannedValues(server, c, settings, random);
    Format.EncodePayloadTotal(server.isRsa, values);
    Format.EnvelopeRoundTrip(server.isRsa, values, values);
    Format.VerifiedIsEnvelope(server.isRsa, Prepare(server, flash, settings, adopt, random).value.envelope);
    Format.CarriesCurrent(server.isRsa, values);
    EnvelopeIsLong(Format.Payload(Format.SCHEMA_VERSION, values));
  }

  /**
   * The plan in full. A keypad that is ours is preserved: it keeps id, secret and debug flag and needs no credential.
   * Blank flash is a first installation and anything else an adoption: both get the new id and secret, a credential for
   * them, and no debugging. Every plan carries the given settings and this server's key,
       and the digest of its envelope.
   */
  lemma PlanFields(server: Server, flash: Flash, settings: Settings, adopt: bool, random: Random)
    requires Prepare(server, flash, settings, adopt, random).Some?
    ensures Readable(flash)
    ensures var plan, s := Prepare(server, flash, settings, adopt, random).value,
            Select(server.isRsa, flash.a, flash.b);
            var ours := s.Configured? && Local(s.record.values, server.devices, server.publicKey);
            && |plan.envelope| >= 11 && plan.digest == server.sha256(plan.envelope)
            && if ours then
                 && plan.action == Preserve && plan.deviceId == s.record.values.deviceId && plan.newCredential.None?
                 && Format.DecodePayload(server.isRsa, plan.envelope[7..|plan.envelope| - 4]) ==
                    Some(Format.Values(s.record.values.deviceId, s.record.values.deviceSecret, settings.ssid,
                        settings.psk, settings.serverHost, settings.serverPort, server.publicKey,
                        s.record.values.serialDebug))
               else
                 && plan.action == (if s.Configured? then Adopt else Initial)
                 && plan.deviceId == Chars("keypad-") + random.uuid
                 && plan.newCredential == Some(Credential(plan.deviceId, ToHex(random.secret)))
                 && Format.DecodePayload(server.isRsa, plan.envelope[7..|plan.envelope| - 4]) ==
                    Some(Format.Values(plan.deviceId, random.secret, settings.ssid, settings.psk, settings.serverHost,
                        settings.serverPort, server.publicKey, false))
  {
    hide Format.Valid, Format.VerifyEnvelope, Format.DecodePayload, Format.Envelope, Format.Payload, Classify, Select,
         Prepare, ToHex, Local;
    PlanCarriesValues(server, flash, settings, adopt, random);
    PlanParts(server, flash, settings, adopt, random);
    assert Chars("keypad-") == ID_PREFIX;
  }

  lemma PlanParts(server: Server, flash: Flash, settings: Settings, adopt: bool, random: Random)
    requires Prepare(server, flash, settings, adopt, random).Some?
    ensures Readable(flash)
    ensures var plan, s := Prepare(server, flash, settings, adopt, random).value,
            Select(server.isRsa, flash.a, flash.b);
            var c := Classify(server.isRsa, flash.a, flash.b, server.devices, server.publicKey).value;
            var ours := s.Configured? && Local(s.record.values, server.devices, server.publicKey);
            && plan.digest == server.sha256(plan.envelope)
            && c == (if s.Configured? then Owned(s.copy, s.record, ours) else Unconfigured(s))
            && plan.deviceId == PlannedValues(server, c, settings, random).deviceId
            && if ours then plan.action == Preserve && plan.newCredential.None?
               else
                 && plan.action == (if s.Configured? then Adopt else Initial)
                 && plan.newCredential == Some(Credential(plan.deviceId, ToHex(random.secret)))
  {
    hide Format.Envelope, Format.EncodePayload, Select, ToHex, Local;
  }

  /** A keypad is ours if the credentials hold its id with its very secret and it pins this server's key. */
  lemma OursExactly(v: Format.Values, devices: Devices, serverPublicKey: Bytes)
    requires |v.deviceSecret| == 32
    ensures Local(v, devices, serverPublicKey) <==>
            && v.deviceId in devices && v.serverPublicKey == serverPublicKey
            && Lower(devices[v.deviceId].secret) == ToHex(v.deviceSecret)
  {
    hide ValidSecret, FromHex, ToHex, Lower;
    if v.deviceId in devices {
      SecretMatches(devices[v.deviceId].secret, v.deviceSecret);
    }
  }

  lemma EnvelopeIsLong(payload: Bytes)
    ensures |Format.Envelope(payload)| >= 11
  {
    hide Crc.Checksum;
  }

  /** The new credential of a plan can be registered. */
  lemma PlanRegisters(server: Server, flash: Flash, settings: Settings, adopt: bool, random: Random)
    requires ValidRandom(random)
    requires Prepare(server, flash, settings, adopt, random).Some?
    ensures Registered(server.devices, Prepare(server, flash, settings, adopt, random).value).Some?
  {
    hide Format.EncodePayload, Format.Envelope, Classify, ValidId, ValidSecret;
    RandomIdValid(random);
    HexRoundTrip(random.secret);
  }

  /**
   * After a plan's credential is registered and its payload delivered, the keypad is recognised as local,
   * and preparing it again with the same server key, whatever the settings, keeps its identity and secret.
   */
  lemma LoopCloses(
    server: Server, flash: Flash, settings: Settings, adopt: bool, random: Random, plan: Plan,
    devices: Devices, flash': Flash, settings': Settings, adopt': bool, random': Random)
    requires ValidRandom(random)
    requires Prepare(server, flash, settings, adopt, random) == Some(plan)
    requires Registered(server.devices, plan) == Some(devices)
    requires Delivered(server.isRsa, plan.envelope, flash')
    ensures var c := Classify(server.isRsa, flash'.a, flash'.b, devices, server.publicKey);
            c.Some? && c.value.Owned? && c.value.isLocal
    ensures var again := Prepare(server.(devices := devices), flash', settings', adopt', random');
            var before := Format.DecodePayload(server.isRsa, plan.envelope[7..|plan.envelope| - 4]);
            again.Some? ==>
              var after := Format.DecodePayload(server.isRsa, again.value.envelope[7..|again.value.envelope| - 4]);
              && again.value.action == Preserve && again.value.newCredential == None
              && again.value.deviceId == plan.deviceId
              && before.Some? && after.Some? && after.value.deviceId == before.value.deviceId == plan.deviceId
              && after.value.deviceSecret == before.value.deviceSecret
              && after.value.serialDebug == before.value.serialDebug
  {
    hide Format.VerifyEnvelope, Format.DecodePayload, Format.EncodePayload, Format.Envelope, Select, ToHex, FromHex,
         ValidId;
    PlanCarriesValues(server, flash, settings, adopt, random);
    PlanIsLocal(server, flash, settings, adopt, random, plan, devices);
    if Prepare(server.(devices := devices), flash', settings', adopt', random').Some? {
      PlanCarriesValues(server.(devices := devices), flash', settings', adopt', random');
    }
  }

  lemma PlanIsLocal(
      server: Server, flash: Flash, settings: Settings, adopt: bool, random: Random, plan: Plan, devices: Devices)
    requires ValidRandom(random)
    requires Prepare(server, flash, settings, adopt, random) == Some(plan)
    requires Registered(server.devices, plan) == Some(devices)
    ensures var c := Classify(server.isRsa, flash.a, flash.b, server.devices, server.publicKey).value;
            Local(PlannedValues(server, c, settings, random), devices, server.publicKey)
  {
    hide Format.EncodePayload, Format.Envelope, Select, ToHex, FromHex, ValidId, ValidSecret;
    HexRoundTrip(random.secret);
  }

  /** Preparing again succeeds exactly for settings the format accepts: identity and key no longer stand in the way. */
  lemma PrepareAgain(server: Server, flash: Flash, settings: Settings, adopt: bool, random: Random)
    requires var c := Classify(server.isRsa, flash.a, flash.b, server.devices, server.publicKey);
             c.Some? && c.value.Owned? && c.value.isLocal
    ensures Prepare(server, flash, settings, adopt, random).Some? <==> LegalSettings(settings)
  {
    hide Format.LegalText, Format.Payload, Format.DecodePayload, Format.Envelope;
    var c := Classify(server.isRsa, flash.a, flash.b, server.devices, server.publicKey).value;
    var values := PlannedValues(server, c, settings, random);
    Format.EncodePayloadTotal(server.isRsa, values);
    SelectedIsValid(server.isRsa, flash);
  }

  lemma SelectedIsValid(isRsa: Format.KeyParser, flash: Flash)
    requires Readable(flash) && Select(isRsa, flash.a, flash.b).Configured?
    ensures Format.Valid(isRsa, Select(isRsa, flash.a, flash.b).record.values)
  {
    hide Format.Valid, ReadRecord, Newer;
    RecordIsValid(isRsa, if Select(isRsa, flash.a, flash.b).copy == A then flash.a else flash.b);
  }

  lemma RecordIsValid(isRsa: Format.KeyParser, sector: Bytes)
    requires |sector| == SECTOR_SIZE && ReadRecord(isRsa, sector).Some?
    ensures Format.Valid(isRsa, ReadRecord(isRsa, sector).value.values)
  {
    hide Format.Valid, Format.DecodePayload, Crc.Checksum;
    var size := ReadBE(sector[9..11]);
    DecodedIsValid(isRsa, sector[11..11 + size]);
  }

  lemma DecodedIsValid(isRsa: Format.KeyParser, payload: Bytes)
    requires Format.DecodePayload(isRsa, payload).Some?
    ensures Format.Valid(isRsa, Format.DecodePayload(isRsa, payload).value)
  {
    hide Format.Valid;
  }

  // ---- Delivery ----

  /** On a configured keypad, the next record written for the envelope's payload delivers it; */
  lemma NextRecordDelivers(isRsa: Format.KeyParser, envelope: Bytes, flash: Flash)
    requires Readable(flash) && Select(isRsa, flash.a, flash.b).Configured?
    requires Format.VerifyEnvelope(isRsa, envelope)
    ensures var s := Select(isRsa, flash.a, flash.b);
            var payload := envelope[7..|envelope| - 4];
            |payload| <= Format.MAX_PAYLOAD_SIZE &&
            var w := Committed(RecordSector(Successor(s.record.generation), payload));
            LegalWrite(isRsa, s.record, w) && Delivered(isRsa, envelope, Overwrite(flash, s.copy, w))
  {
    hide Format.VerifyEnvelope, Format.DecodePayload, Format.Envelope, Select, ReadRecord, RecordSector, Overwrite;
    var s := Select(isRsa, flash.a, flash.b);
    PayloadFits(isRsa, envelope);
    var payload := envelope[7..|envelope| - 4];
    RecordRoundTrip(isRsa, Successor(s.record.generation), payload);
    WriteSelects(isRsa, flash, Committed(RecordSector(Successor(s.record.generation), payload)));
  }

  /** on a blank one, a first record of any generation does, in either sector. */
  lemma FirstRecordDelivers(isRsa: Format.KeyParser, envelope: Bytes, flash: Flash, generation: nat)
    requires Readable(flash) && Select(isRsa, flash.a, flash.b).Blank? && generation < TWO32
    requires Format.VerifyEnvelope(isRsa, envelope)
    ensures var payload := envelope[7..|envelope| - 4];
            |payload| <= Format.MAX_PAYLOAD_SIZE &&
            var sector := RecordSector(generation, payload);
            Delivered(isRsa, envelope, flash.(a := sector)) && Delivered(isRsa, envelope, flash.(b := sector))
  {
    hide Format.VerifyEnvelope, Format.DecodePayload, Format.Envelope, ReadRecord, RecordSector;
    PayloadFits(isRsa, envelope);
    RecordRoundTrip(isRsa, generation, envelope[7..|envelope| - 4]);
  }

  lemma PayloadFits(isRsa: Format.KeyParser, envelope: Bytes)
    requires Format.VerifyEnvelope(isRsa, envelope)
    ensures |envelope| >= 12
    ensures var payload := envelope[7..|envelope| - 4];
            0 < |payload| <= Format.MAX_PAYLOAD_SIZE && Format.DecodePayload(isRsa, payload).Some?
  {
    hide Format.DecodePayload, Crc.Checksum;
  }
}
