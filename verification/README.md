# MindFlayer keypad server: a verified model

This project models the server of the MindFlayer keypad and proves what its documentation and tests promise, for all
inputs and all runs. It covers five parts.

**Sessions.** Keypads and browsers share one registry. `Sessions.dfy` says what each event handler does to the state, as
functions; `Server.dfy` has the same handlers as classes whose objects are updated in place, and each method is proved
to compute its function. Every connection carries the record of what it was sent and what it sent. On that record rest
the theorems about all runs: identity and version (`SessionMoves.dfy`, `SessionRuns.dfy`, `SessionOrigins.dfy`), LED
confirmation and configuration proofs (`SessionRecords.dfy`, `SessionReplay.dfy`), receivers' views of presence
(`PresenceViews.dfy`) and of colours (`LedViews.dfy`), runs on which those views go wrong (`FailingRuns.dfy`), and the
evidence behind a finished installation (`InstallationEvidence.dfy`, `Online.dfy`). `SessionAnswers.dfy` says what every
frame, message and offer is answered with, and `InstallationRuns.dfy` when a wait for an installation must resolve.

**Credential store.** `StoreProtocol.dfy` is the lock, reload, write and rename protocol as file-system steps of any
number of calls, with a fault or a crash possible at each step and a power loss between any two. `DeviceStores.dfy` is
the store object; one call of it is a run of the protocol.

**Provisioning.** The payload and its envelope (`Format.dfy`), the CRC-32 down to its bits (`Crc.dfy`), the two flash
copies (`Storage.dfy`) and the installation loop (`Installation.dfy`).

**Keypad frames.** The deterministic subset of CBOR (sections 3 and 4.2.1 of RFC 8949): `Cbor.dfy`, `Utf8.dfy`,
`Protocol.dfy`, the cursor parser `FrameCursor.dfy` and the server's own frames `ServerFrames.dfy`; all of them byte by
byte in `WireFormat.dfy`. `Fixtures.dfy` has the examples of the repository's own tests.

**Firmware.** The boot2 image check (`Boot2.dfy`) and the check around it (`Firmware.dfy`), the release archive
(`Archive.dfy`), the cache and the choice of a release (`Updater.dfy`), offers (`Rollout.dfy`, with `Semver.dfy`) and
download tokens (`Tokens.dfy`).

Text is its UTF-8 bytes. HMAC, the RSA key parser and firmware verification are arbitrary functions passed in; nonces,
tokens and ids are fresh inputs; every clock reading is an input. `dafny verify dfyconfig.toml` checks everything.

## What the proofs found

- A registration frame of a keypad that was removed from the credentials clears its confirmed colours and then throws,
  so receivers go on showing them (`FailingRuns.DroppedRun`; exactly when: `LedViews.AgreesRunExactly`,
  src/index.js:411-419). A browser that registers under a keypad's id takes its colours away at the receivers
  (`FailingRuns.OverwrittenRun`; exactly when: `LedViews.RegistrationExactly`, src/index.js:77-128).
- The directory sync after the rename protects only the call that makes it. If it fails, or the call crashes before it
  and its lock is removed, a retry finds its entry and is acknowledged without one
  (`StoreProtocol.AcknowledgedThenLost`; exactly when: `StoreProtocol.DurableExactly`,
  src/security/device-store.js:76-109).
- docs/firmware-updates.md:77 limits offers of one version to one device to once per ten minutes. The code remembers only
  the last version, so a pin switched away and back breaks the limit (`Rollout.SwitchedPinRepeats`; exactly when:
  `Rollout.LimitKeptExactly`). Unpinned devices keep it (`Rollout.UnpinnedOffersSpaced`).
- A complete installation need not be the latest release after a restart (`Updater.CrowdedExample`; exactly when:
  `Updater.InstalledIsLatest`, src/firmware/github-updater.js:87-88).
- A browser that registers twice under different ids stays visible under the first (`FailingRuns.TwoIdsRun`). So may one
  that turns from controller to receiver, registers with another status, or with a falsy `receiver` other than `false`
  (exactly when: `PresenceViews.RegistrationAgreesExactly`).
- The text decoder drops one leading byte order mark, so two frames can deliver one message (exactly when:
  `Protocol.MessageUniqueExactly`). Exactness of the decoder is therefore stated on raw bytes.

## Model

| member | source | states |
|---|---|---|
| `Server.Server.Select` | src/connection/registry.js:29-38 | the receivers (flag `true`) or the controllers (flag `false`) in registration order, each once; any other flag value is neither |
| `Server.Server.AddConnection` | src/connection/registry.js:40-51 | a connection joins the registry once and starts without role and id |
| `Server.Server.RemoveConnection` | src/connection/registry.js:53-75 | computes `Sessions.Remove`; a second removal changes nothing |
| `Server.Server.Drop` | src/connection/registry.js:55-57 | exactly this connection leaves the list, the order of the others is kept |
| `Server.Server.HeldHere` | src/connection/registry.js:62-66 | the search for another controller of the id finds one exactly if the registry holds one |
| `Server.Server.OnClose` | src/connection/registry.js:47-50 | a closed connection delivers nothing more and is removed |
| `Server.Server.OnHealthCheck` | src/connection/registry.js:81-87 | a health check can end any registered connection and no other |
| `SessionRegistry.RemoveEffect` | src/connection/registry.js:53-75 | removal tells every remaining receiver exactly one disconnect if the connection was the last controller of its text id, and nobody anything otherwise |
| `SessionRegistry.BroadcastEffect` | src/connection/registry.js:29-33 | a broadcast reaches exactly the receivers in the registry and changes no other connection |
| `PresenceViews.SnapshotPresent` | src/connection/registry.js:34-38 | after a snapshot a view holds what it held before and the ids of the controllers listed |
| `PresenceViews.RemovedIds` | src/connection/registry.js:58-67 | the set of controller ids loses an id exactly if no other controller has it |
| `PresenceViews.RemoveAgrees` | src/connection/registry.js:53-75 | removal keeps every receiver's view equal to the ids in the registry |
| `Server.Server.HandleRegistration` | src/index.js:69-129 | computes `Sessions.Register`: identity mismatch closes, receivers get the controllers, controllers replace stale keypads and are announced |
| `Server.Server.ListControllers` | src/index.js:83-95 | a new receiver is told of every controller once, with that controller's current metadata |
| `Server.Server.FindReplaced` | src/index.js:101-108 | the replaced connections are the other authenticated controllers of the same id |
| `Server.Server.Retire` | src/index.js:97-113 | replaced keypads are removed and terminated, one after the other |
| `SessionRegistry.RetireEffect` | src/index.js:97-113 | retiring replaced keypads tells nobody anything: it closes exactly them and takes exactly them out of the registry |
| `SessionRegistry.RegisterControllerEffect` | src/index.js:96-128 | a controller's registration tells each receiver one thing, its own presence; a replug is not seen as a disconnect |
| `SessionRegistry.RegisterReceiverEffect` | src/index.js:83-95 | a receiver's registration reaches no other connection |
| `Server.Server.NamedControllers` | src/index.js:130-133 | the addressees of a configuration are exactly the controllers with that id, compared strictly |
| `Server.Server.Command` | src/index.js:139-158 | the old confirmation is withdrawn at the server and at every receiver before the new command goes out |
| `Server.Server.HandleConfiguration` | src/index.js:130-167 | one command per addressee in order; an encoder that throws ends the round and leaves the later ones untouched |
| `Server.Server.Authenticate` | src/index.js:355-405 | computes `Sessions.Authenticate`: reload, proof over the connection's own challenge, result frame, registry |
| `Server.Server.Judge` | src/index.js:366-404 | a proof for an unknown device or over other bytes is refused and closes; a right one is acknowledged and registered |
| `Server.Server.RegisterKeypad` | src/index.js:411-445 | clears confirmation and proof, registers, then acceptance, query and offer in that order |
| `Server.Server.Answer` | src/index.js:429-445 | the frames answering a registration, in their order |
| `Server.Server.AcknowledgeLeds` | src/index.js:446-466 | only an acknowledgement with the pending command's nonce confirms and is announced |
| `Server.Server.Report` | src/index.js:467-489 | only a report with the outstanding nonce is recorded and announced; any other closes the connection |
| `Server.Server.OnFrame` | src/index.js:339-502 | the whole message handler: size, decoding, authentication, version pinning and dispatch |
| `Server.Server.OnBrowser` | src/index.js:238-248 | a browser connection joins the registry at once |
| `Server.Server.OnKeypad` | src/index.js:333-338 | a keypad connection starts with a challenge and outside the registry |
| `Server.Server.OnBrowserRegistration` | src/index.js:240-247 | a browser's registration reaches the handler only while its connection is open |
| `Server.Server.OnBrowserConfiguration` | src/index.js:240-247 | a browser's configuration reaches the handler only while its connection is open |
| `Server.Server.OnKeypadFrame` | src/index.js:339-502 | one keypad frame is one step of the session machine |
| `Server.Server.OnBrowserKey` | src/index.js:64-68 | a browser's key event is passed on to exactly the receivers |
| `Server.Server.OnPlayerLogin` | src/index.js:183-191 | a player's login is passed on to exactly the receivers |
| `Server.Server.OnReload` | src/index.js:363-366 | the credentials last loaded are what later handlers look up |
| `SessionMoves.IdentityMove` | src/index.js:355-409 | every handler keeps the identity record of a keypad connection; no frame is heeded that is not in the version of its authentication |
| `SessionOrigins.StepFollows` | src/index.js:339-502 | every event adds to a keypad's record only the frame it brought, in that frame's version, and what the server sends; a connection is authenticated only by a frame at whose arrival the loaded credentials hold its id with the secret it used |
| `SessionOrigins.IdentityOnEveryRun` | src/index.js:355-445 | on every run an authenticated connection answered its own challenge with the secret that the credentials, loaded when the answer arrived, hold for its id; it carries no id but that one; every frame it was heeded for did arrive on it, in the version of that answer, and so was every frame it was sent |
| `SessionAnswers.ProofAccepted` | src/index.js:355-405 | a right proof, in any version, authenticates the connection, is acknowledged with the id in that version, and puts it into the registry |
| `SessionAnswers.ProofRefused` | src/index.js:366-390 | any other proof is answered with a refusal and closes; without readable credentials the connection is only closed |
| `SessionAnswers.UnexpectedCloses` | src/index.js:341-358 | a frame that is no message, out of turn, of another version or a second authentication closes the connection and does nothing else |
| `SessionAnswers.RegistrationAnswered` | src/index.js:411-445 | a registration is answered in full, acceptance, query and offer exactly when due and in this order, and every receiver is told the keypad's id, firmware and hardware |
| `SessionAnswers.RegistrationDropped` | src/index.js:411-419 | a keypad that is gone from the credentials only loses what it had shown: nobody is told, nothing is sent |
| `SessionAnswers.CommandConfirmed` | src/index.js:446-466 | an acknowledgement with the pending command's nonce confirms that command's colours, and every receiver is told them |
| `SessionAnswers.CommandNotConfirmed` | src/index.js:446-454 | an acknowledgement with any other nonce is only recorded |
| `SessionAnswers.ReportRecorded` | src/index.js:467-489 | a report with the outstanding nonce has its digest recorded with the time, keeps the connection open, and every receiver is told both |
| `SessionAnswers.ReportRefused` | src/index.js:467-475 | a report with any other nonce closes the connection and records nothing |
| `SessionAnswers.KeyForwarded` | src/index.js:490-496 | a key event reaches every receiver under the keypad's id, with the key and state it was sent |
| `SessionAnswers.OfferSent` | src/firmware/rollout.js:88-98 | new firmware is offered, field by field, to every open authenticated keypad that has reported firmware and hardware |
| `SessionAnswers.OfferWithheld` | src/firmware/rollout.js:88-98 | and to nobody else |
| `SessionAnswers.ColoursReach` | src/index.js:130-167 | on every run, colours sent to an id reach every controller registered under it, in a command with a fresh nonce, in the frame of an older version, or in a message, and nobody else but receivers hears of them |
| `SessionAnswers.ConfigurationReaches` | src/index.js:130-167 | so for any list of addressees |
| `SessionAnswers.VersionsKnown` | src/index.js:407-410 | on every run an authenticated keypad speaks one of the three versions |
| `SessionAnswers.TextForwarded` | src/index.js:64-68 | a browser's key event and a player's login reach every receiver as they are |
| `SessionAnswers.UnhealthyCloses` | src/connection/registry.js:81-87 | a failed health check closes the connection and nothing else |
| `SessionAnswers.EndAnnounced` | src/connection/registry.js:53-75 | a connection that ends is closed and leaves the registry, and exactly if it was the last controller of its id every receiver left is told so |
| `SessionRuns.OneKeypadPerId` | src/index.js:97-113 | on every run at most one keypad in the registry is registered under an id |
| `SessionRuns.InvRun` | src/index.js:62-169 | every run of all events keeps registry and records in order |
| `SessionRecords.LedsMove` | src/index.js:139-158 | every handler keeps the confirmed colours tied to the last command and its own nonce |
| `SessionRuns.LedsOnEveryRun` | src/index.js:446-466 | on every run the confirmed colours of a keypad are `leds` if and only if the last command since its last registration carried `leds` and an acknowledgement with that command's nonce was received for it |
| `SessionReplay.OldAcknowledgement` | src/index.js:446-454 | an acknowledgement of a superseded or already acknowledged command changes no state and is told to nobody |
| `SessionReplay.OldReport` | src/index.js:467-475 | a report answering a query of an earlier epoch records nothing and closes the connection |
| `SessionRecords.ProofMove` | src/index.js:411-478 | every handler keeps a configuration proof inside the epoch it was asked for in |
| `SessionRecords.OrderMove` | src/index.js:416-445 | an accepted registration puts the acceptance before every offer |
| `SessionReplay.AcceptedBeforeOffered` | src/index.js:416-445 | on every run on which the credentials never pin a device, each offer to it follows the acceptance of its current registration, which names the firmware it registered with |
| `SessionReplay.OrderedRun` | src/index.js:429-445 | the order of acceptance and offer is kept over all connections and events |
| `SessionReplay.OrderStepExactly` | src/index.js:411-445 | for any device and any event: offers go on following acceptances exactly unless an offer goes out to a connection whose registration in force, or the one just received, is not accepted |
| `SessionReplay.OrderRunExactly` | src/index.js:411-445 | on any run every offer to a connection follows the acceptance of the firmware its registration in force named if and only if no such offer is made |
| `PresenceViews.AgreesStep` | src/index.js:69-129 | every event keeps each receiver's view equal to the controller ids in the registry, exactly unless it is a browser's registration that misleads another receiver |
| `PresenceViews.AgreesRun` | src/index.js:69-129 | presence agreement over every run in which a browser that registers as a controller keeps one id |
| `PresenceViews.RegistrationAgreesExactly` | src/index.js:77-128 | a browser's registration of any kind keeps every view right if and only if what the other receivers come to believe is what the registry comes to hold, both computed from the state before |
| `PresenceViews.AgreesRunExactly` | src/index.js:69-129 | every view is right throughout a run if and only if no browser's registration in it misleads another receiver |
| `PresenceViews.DisciplineSuffices` | src/index.js:77-128 | receivers, and controllers that keep one id, mislead nobody |
| `FailingRuns.TwoIdsRun` | src/index.js:77-82 | a run from the start of the server on which a browser takes a second id and a receiver's view ends up wrong |
| `PresenceViews.SecondIdLingers` | src/index.js:77-82 | a browser that takes a second id stays visible under its first one, which nobody holds any more |
| `PresenceViews.ControllerIds` | src/index.js:77-113 | a registration adds exactly its own id to the ids in the registry, whomever it replaces |
| `LedViews.AgreesStep` | src/index.js:130-167 | while browsers keep off the id and its keypad is not dropped, every event keeps the receivers' colours equal to the server's |
| `LedViews.AgreesRun` | src/index.js:446-466 | on every run in which browsers keep off an id and its keypad is not dropped from the credentials while it shows colours, every receiver shows exactly the confirmed colours |
| `LedViews.RegistrationAgreesIff` | src/index.js:411-428 | a registration frame keeps the receivers' colours right if and only if the keypad is still in the credentials or had nothing confirmed; otherwise the handler throws after clearing and tells nobody |
| `FailingRuns.DroppedRun` | src/index.js:411-428 | a run from the start of the server on which a keypad shows confirmed colours, is taken out of the credentials and registers again, and a receiver goes on showing them |
| `LedViews.RegistrationExactly` | src/index.js:69-129 | a browser's registration makes a receiver show other colours than the server holds exactly if the keypad of the id shows some and the browser registers under that id while another receiver watches, or becomes a receiver and is told last of a browser under that id |
| `LedViews.AgreesStepExactly` | src/index.js:130-167 | of all events exactly such a registration, and a watched registration frame of a keypad that shows colours and is gone from the credentials, make a receiver show other colours than the server holds |
| `LedViews.CarefulParts` | src/index.js:69-129 | where browsers keep off the id only the latter can |
| `LedViews.AgreesRunExactly` | src/index.js:411-466 | every receiver shows exactly the confirmed colours throughout a run if and only if none of these events occurs in it |
| `FailingRuns.OverwrittenRun` | src/index.js:69-129 | a run from the start of the server on which a receiver shows a keypad's confirmed colours until another browser registers under its id |
| `LedViews.SnapshotShows` | src/index.js:42-60 | a new receiver shows for an id the colours of the last controller it is told of under that id |
| `InstallationEvidence.ReportFounded` | src/index.js:476-489 | an announced proof is evidence for the firmware and hardware the receivers already hold for that id |
| `InstallationEvidence.InstallationIsEvidence` | src/provisioning/online.js:56-100 | whatever browsers and keypads send: if a wait resolves with a record, that record's hardware, firmware, digest and time were proved by one keypad of that id, authenticated with the secret that the credentials loaded then hold for it, within one epoch it began with exactly this hardware and firmware, at that time, which is no earlier than asked for |
| `InstallationEvidence.SoundStep` | src/provisioning/online.js:56-88 | every event keeps all records of all waiting browsers founded |
| `InstallationEvidence.SnapshotMatches` | src/provisioning/online.js:69-81 | after a snapshot the record is about the registered keypad of the id or about nobody |
| `Online.Waiter.constructor` | src/provisioning/online.js:11-25 | a wait starts exactly for a valid request |
| `Online.Waiter.OnMessage` | src/provisioning/online.js:56-100 | the record is the fold of the messages heard; a message about the keypad, new or repeated, ends the wait exactly if the record then satisfies it, and nothing ends it twice |
| `Online.Waiter.Finish` | src/provisioning/online.js:30-37 | the first ending stands |
| `Online.Waiter.OnTimeoutOrClose` | src/provisioning/online.js:38-50 | a timeout, an error or a close ends only a wait that has not ended |
| `InstallationRuns.RegistrationNoticed` | src/provisioning/online.js:69-81 | after a keypad's registration every watching browser's record holds its firmware and hardware, and no proof |
| `InstallationRuns.ReportNoticed` | src/provisioning/online.js:82-88 | after a heeded report a record of the keypad holds the proof with it |
| `InstallationRuns.JoinNoticed` | src/provisioning/online.js:69-81 | a browser that becomes a receiver holds at once the firmware, hardware and proof of the keypad listed last under the id |
| `InstallationRuns.SnapshotNoticed` | src/provisioning/online.js:69-81 | so for any list of controllers |
| `InstallationRuns.DepartureNoticed` | src/provisioning/online.js:69-81 | when the last controller of an id leaves, the records of it are dropped |
| `InstallationRuns.ImpostorNoticed` | src/provisioning/online.js:69-81 | so they are when a browser registers under the id |
| `InstallationRuns.SatisfiedResolves` | src/provisioning/online.js:89-100 | as soon as the record satisfies the wait, the wait resolves with it |
| `InstallationRuns.InstallationResolves` | src/provisioning/online.js:56-100 | whatever has happened before: if a browser watches while a keypad connects, proves itself with the stored secret, registers with the awaited firmware and reports the awaited digest, its wait resolves with just that |
| `InstallationRuns.ResolvedRun` | src/provisioning/online.js:56-100 | a run from the start of the server on which a wait resolves |
| `DeviceAuth.AuthInputInjective` | src/security/device-auth.js:5-15 | the input of a proof belongs to one device id and one challenge |
| `DeviceAuth.PrefixedInjective` | src/security/device-auth.js:8-13 | a length-prefixed field can be split off in one way |
| `DeviceAuth.AuthInputLayout` | src/security/device-auth.js:5-15 | the input of a proof byte by byte: domain, id and challenge, each behind its length in four bytes |
| `DeviceAuth.ProofOfKey` | src/security/device-auth.js:24-29 | the key of a proof is the secret's bytes |
| `Credentials.RegisterGrows` | src/security/device-store.js:67-95 | registering adds one entry, keeps all others and their secrets, and registering it again succeeds and changes nothing |
| `Credentials.HexRoundTrip` | src/security/device-store.js:69-70 | hexadecimal secrets decode to the bytes they were made from |
| `Credentials.HexDigits` | src/security/device-store.js:69-70 | the digits of a byte in hexadecimal, the higher one first |
| `Credentials.SecretMatches` | src/provisioning/storage.js:30-44 | a stored secret, in either case, stands for given bytes exactly if it is their hexadecimal text |
| `Credentials.IdBounds` | src/security/device-store.js:5-8 | which characters an id may have where, and how many |
| `StoreProtocol.ReadableExactly` | src/security/device-store.js:31-46 | a missing file is empty, a complete one of up to four megabytes is read, anything else is not |
| `StoreProtocol.InvStep` | src/security/device-store.js:67-121 | every operation, fault or crash of any of any number of calls, and the removal of a stale lock, keeps the published file one complete state to which entries are only added |
| `StoreProtocol.InitialInv` | src/security/device-store.js:11-29 | a complete file or none, without a lock, is a legal start |
| `StoreProtocol.NoLostUpdates` | src/security/device-store.js:67-121 | over any interleaving of calls, faults and crashes: the file is one complete state, no entry or secret changes, every acknowledged entry is there and so is every entry any reader saw |
| `StoreProtocol.LockRemovedByHolder` | src/security/device-store.js:112-120 | apart from an administrator and a power loss only the call that holds the lock removes it, as its last step, and nobody else holds it then |
| `StoreProtocol.RefusedTouchesNothing` | src/security/device-store.js:72-73 | a call that finds the lock taken returns and changes nothing, then or later |
| `StoreProtocol.CrashAbandons` | src/security/device-store.js:73-120 | a holder that crashes leaves the lock behind |
| `StoreProtocol.AbandonedBlocks` | src/security/device-store.js:73-120 | an abandoned lock blocks every later writer: the file stays as it is and no further call is acknowledged |
| `StoreProtocol.PowerLossStep` | src/security/device-store.js:100-109 | after a power loss the file is complete: the last synced one or any of those renamed into its place since, with no entry of the synced one missing and none that was never published |
| `StoreProtocol.AcknowledgedSurvive` | src/security/device-store.js:90-111 | as long as no acknowledgement is unsynced, acknowledged entries survive any run with any number of power losses |
| `StoreProtocol.KeptStepExactly` | src/security/device-store.js:76-109 | of all events exactly one endangers what was acknowledged: a call that acknowledges an entry it found before any directory sync made it durable |
| `StoreProtocol.DurableExactly` | src/security/device-store.js:76-109 | over any run every acknowledged entry stays where a power loss cannot take it if and only if no call acknowledges such an entry |
| `StoreProtocol.PowerLossTakes` | src/security/device-store.js:100-109 | an acknowledged entry is there after a power loss, whichever renames it undoes, exactly if it was kept in this sense |
| `StoreProtocol.NoLapseSuffices` | src/security/device-store.js:100-120 | while directory syncs succeed and no lock is removed over an unsynced rename, there is no such call |
| `StoreProtocol.AcknowledgedThenLost` | src/security/device-store.js:78-109 | two runs lose an acknowledged entry: after a failed directory sync, or a lock removed after a crash at that point, the registration is sent again, acknowledged without a sync, and a power loss takes it |
| `StoreProtocol.OtherOk` | src/security/device-store.js:75-120 | a call that is not stepping is undisturbed by one that is |
| `DeviceStores.DeviceStore.Reload` | src/security/device-store.js:15-58 | reload takes over the published entries or throws and keeps the old ones |
| `DeviceStores.DeviceStore.Get` | src/security/device-store.js:59-61 | an entry is found exactly if it is loaded |
| `DeviceStores.DeviceStore.Register` | src/security/device-store.js:67-121 | one call is that run of the protocol in which only this call moves and exactly the given operations throw |
| `DeviceStores.RegistersExactly` | src/security/device-store.js:67-121 | that run is acknowledged if and only if id and secret are valid, the lock is free, the file is readable, the entry is there with this secret or is absent and written, renamed and synced, and nothing throws on the way; an added entry is then published and durable, the file is otherwise as it was, the lock stays behind exactly if it was taken and the clean-up threw, and a temporary file only if its removal threw |
| `DeviceStores.DeviceStore.Replace` | src/security/device-store.js:75-111 | the body between lock and clean-up takes the call through its operations in that run |
| `DeviceStores.DeviceStore.Publish` | src/security/device-store.js:90-111 | write, rename and sync do, each throwing exactly as given |
| `DeviceStores.DeviceStore.Swap` | src/security/device-store.js:100-111 | rename and sync do; a failed sync leaves the new file published but not durable |
| `Crc.Crc32` | src/provisioning/format.js:8-16 | the loop computes the checksum that the bit register defines |
| `Fixtures.CrcFixture` | src/provisioning/format.js:8-16 | the checksum of the digits 1 to 9 is 0xcbf43926, as test/provisioning-format.test.js:40 expects |
| `Crc.StepBitsLinearBijection` | src/provisioning/format.js:12-13 | one bit step is a linear bijection of 32-bit registers |
| `Crc.StepIsStepBits` | src/provisioning/format.js:13 | the shift-and-mask expression is that register step |
| `Crc.RunIsFeed` | src/provisioning/format.js:10-14 | running over bytes is feeding their bits one at a time |
| `Crc.MeetingRegisters` | src/provisioning/format.js:8-16 | two registers that differ meet again only if more than 32 bits of input differ |
| `Crc.BurstDetected` | src/provisioning/format.js:8-16 | inputs of one length that differ only within 32 consecutive bits, at any bit position, have different checksums |
| `Crc.FourByteChangeDetected` | src/provisioning/format.js:8-16 | inputs that differ only within four consecutive bytes have different checksums |
| `Format.PayloadRoundTrip` | src/provisioning/format.js:65-126 | decoding undoes encoding for all valid values |
| `Format.AcceptedIsCanonical` | src/provisioning/format.js:95-126 | an accepted payload is the canonical encoding of the values it decodes to |
| `Format.PayloadExact` | src/provisioning/format.js:95-126 | a payload decodes to given values if and only if it is their encoding in one of the two schema versions |
| `Format.PayloadSize` | src/provisioning/format.js:69-81 | no valid payload exceeds 984 bytes, and one has that size |
| `Format.PayloadLayout` | src/provisioning/format.js:69-81 | a payload byte by byte: each setting at its number, in both schema versions |
| `Format.EnvelopeLayout` | src/provisioning/format.js:84-94 | an envelope byte by byte |
| `Format.EncodePayloadTotal` | src/provisioning/format.js:65-82 | encoding fails exactly on invalid values; the size limit is never reached |
| `Format.EncodeEnvelope` | src/provisioning/format.js:84-94 | the buffers filled in place are the envelope of the payload, or an error exactly where encoding throws |
| `Format.EnvelopeExact` | src/provisioning/format.js:128-151 | an envelope verifies if and only if it is the envelope of a decodable payload |
| `Format.EnvelopeRoundTrip` | src/provisioning/format.js:84-151 | the envelope of valid values verifies, and equal envelopes carry equal values |
| `Format.BurstRejected` | src/provisioning/format.js:144-148 | an accepted envelope changed within any 32 consecutive bits of header and payload is rejected |
| `Format.FourBytesRejected` | src/provisioning/format.js:144-148 | an accepted envelope changed within four consecutive bytes of header and payload is rejected |
| `Format.ChecksumChangeRejected` | src/provisioning/format.js:144-148 | an accepted envelope whose checksum field alone is changed is rejected |
| `Storage.RecordRoundTrip` | src/provisioning/storage.js:8-32 | a committed record reads back its generation and its payload's values |
| `Storage.ReadExactly` | src/provisioning/storage.js:8-32 | a sector reads as a record if and only if it is laid out as it: marks at both ends, version, generation, size, a payload that decodes to the settings, and the right checksum |
| `Storage.BurstRejected` | src/provisioning/storage.js:20-26 | a readable sector damaged within any 32 consecutive bits of header and payload, its size field aside, is no record |
| `Storage.FourBytesRejected` | src/provisioning/storage.js:20-26 | nor is one damaged within four consecutive bytes of them |
| `Storage.ChecksumChangeRejected` | src/provisioning/storage.js:20-26 | nor one whose checksum is changed |
| `Storage.NothingSelected` | src/provisioning/storage.js:34-44 | flash is blank exactly if all of it is erased, and configured exactly if a sector holds a record |
| `Storage.TornIsInvalid` | src/provisioning/storage.js:11-16 | a write cut short over erased flash is no record |
| `Storage.SelectionRule` | src/provisioning/storage.js:34-53 | an invalid copy never beats a valid one; of two valid ones A wins exactly if it is ahead by less than 2^31, so ties and distance 2^31 pick B |
| `Storage.PlacementIndependent` | src/provisioning/storage.js:45-52 | unless the generations tie or are 2^31 apart, swapping the sectors selects the same record |
| `Storage.WriteSelects` | src/provisioning/storage.js:45-52 | a committed next record is selected, a torn one leaves the old record selected |
| `Storage.LastCommittedSelected` | src/provisioning/storage.js:34-53 | over any number of committed and torn writes, wrapping any number of times, the last committed record is selected |
| `Installation.PlanExactly` | src/provisioning/installation.js:15-51 | a plan exists if and only if the sectors are whole, the flash is ours, blank, or foreign with consent, a new id is unused, and settings and server key are ones the format takes; damaged flash is never taken for blank |
| `Installation.PlanCarriesValues` | src/provisioning/installation.js:42-51 | the plan's envelope verifies and decodes to the planned values |
| `Installation.PlanFields` | src/provisioning/installation.js:31-68 | the plan in full: action, identity, credential, digest and every setting in its envelope, for our own, blank and foreign keypads |
| `Installation.OursExactly` | src/provisioning/storage.js:55-78 | a keypad is ours exactly if the credentials hold its id with its very secret and it pins this server's key |
| `Installation.PlanRegisters` | src/provisioning/installation.js:59-61 | a plan's new credential can be registered |
| `Installation.LoopCloses` | src/provisioning/installation.js:17-68 | once registered and delivered, the keypad is local, and preparing it again keeps id, secret and debug flag without a new credential |
| `Installation.PrepareAgain` | src/provisioning/installation.js:31-51 | a local keypad can be prepared again exactly with settings the format takes |
| `Installation.NextRecordDelivers` | src/provisioning/installation.js:42-51 | the next record with the plan's payload makes it the selected one |
| `Installation.FirstRecordDelivers` | src/provisioning/installation.js:42-51 | on blank flash a first record in either sector does |
| `Installation.SelectedIsValid` | src/provisioning/installation.js:17-22 | selected values are valid values |
| `Cbor.HeadReads` | src/device/protocol.js:176-196 | a head is read exactly if it is the shortest encoding of its argument |
| `Cbor.HeadInjective` | src/device/protocol.js:176-196 | a head's encoding determines its argument and what follows |
| `Cbor.HeadBytes` | src/device/protocol.js:176-196 | the shortest heads byte by byte, for numbers below 2^32 |
| `Utf8.BomIsValid` | src/device/protocol.js:37 | a leading byte order mark is well formed text and is dropped |
| `Utf8.ValidExactly` | src/device/protocol.js:37 | text is well formed exactly if it is the encoding of characters, surrogates excluded |
| `Protocol.DecodeExact` | src/device/protocol.js:235-325 | a byte string is accepted as a type, version and fields if and only if it is their deterministic encoding and they are legal |
| `Protocol.FramesUnique` | src/device/protocol.js:235-325 | distinct legal tuples have distinct frames, across all three versions |
| `Protocol.FrameSize` | src/device/protocol.js:237-240 | a legal frame is within the size limit, so the limit excludes none |
| `WireFormat.AuthenticationBytes` | src/device/protocol.js:258-268 | which bytes are read as an authentication answer with this id and HMAC, and in which version |
| `WireFormat.RegistrationBytes` | src/device/protocol.js:269-279 | which bytes are read as a registration with this firmware and this hardware |
| `WireFormat.KeyBytes` | src/device/protocol.js:280-293 | which bytes are read as a key event: one of the eleven keys, 1 pressed and 0 released |
| `WireFormat.ReportBytes` | src/device/protocol.js:294-308 | which bytes are read as a report with this nonce and this digest |
| `WireFormat.AppliedBytes` | src/device/protocol.js:309-318 | which bytes are read as an acknowledgement with this nonce |
| `Fixtures.KeypadFixtures` | src/device/protocol.js:235-325 | the keypad frames of test/device-protocol.test.js:16-58 are read as those tests expect |
| `Protocol.DeliverInjective` | src/device/protocol.js:257-324 | without byte order marks the delivered message determines type and fields |
| `Protocol.DeliverExactly` | src/device/protocol.js:213-222 | the fields of any type can be told from the message if and only if every text, once decoded, begins with a byte order mark or leaves no room for one |
| `Protocol.MessageUniqueExactly` | src/device/protocol.js:235-325 | an accepted frame is the only byte string to deliver its message if and only if the same holds of its texts |
| `Protocol.MarkedTwin` | src/device/protocol.js:213-222 | for instance, a marked device id is another accepted frame for the same message |
| `FrameCursor.Cursor.ReadHead` | src/device/protocol.js:176-196 | the loop over argument bytes reads what `Cbor.ReadHead` reads and moves the cursor behind it |
| `FrameCursor.Cursor.ReadUint` | src/device/protocol.js:198-200 | the cursor reads a bounded integer and moves behind it, or fails as the specification does |
| `FrameCursor.Cursor.ReadBytesWithMajor` | src/device/protocol.js:224-233 | the cursor takes exactly the announced bytes, in bounds |
| `FrameCursor.Cursor.ReadBytes` | src/device/protocol.js:202-211 | the cursor reads a byte string of bounded length and moves behind it |
| `FrameCursor.Cursor.ReadText` | src/device/protocol.js:213-222 | the cursor reads well-formed text within bounds, judged after decoding |
| `FrameCursor.DecodeFields` | src/device/protocol.js:256-321 | the switch over the message type reads the fields of its schema |
| `FrameCursor.DecodeDeviceFrame` | src/device/protocol.js:235-325 | the parser returns what the exact decoder delivers, and throws where it does |
| `ServerFrames.ServerFramesUnique` | src/device/protocol.js:66-174 | distinct encodable server frames have distinct encodings |
| `ServerFrames.LimitNeverHit` | src/device/protocol.js:66-70 | every frame whose fields pass their checks fits the frame limit |
| `ServerFrames.EncodedExactly` | src/device/protocol.js:66-174 | which fields each encoder takes, and that the size limit never stops it |
| `WireFormat.KeypadReads` | src/device/protocol.js:66-174 | a keypad that reads any of the seven server frames item by item finds type, version and every field in its place |
| `Fixtures.ChallengeFixture` | src/device/protocol.js:72-78 | the challenge of test/device-protocol.test.js:17 byte by byte |
| `Fixtures.ResultFixture` | src/device/protocol.js:94-102 | the result of test/device-protocol.test.js:19 byte by byte |
| `Fixtures.UpdateFixture` | src/device/protocol.js:140-157 | the update offer of test/device-protocol.test.js:23-27 byte by byte |
| `Fixtures.AcceptedFixture` | src/device/protocol.js:159-165 | the acceptance of test/device-protocol.test.js:28 byte by byte |
| `ServerFrames.ServerFrameRefused` | src/device/protocol.js:319-320 | the keypad-frame parser refuses every server frame |
| `ServerFrames.ArrayInjective` | src/device/protocol.js:66-70 | a canonical array encoding determines its items |
| `Boot2.VerifyBoot2` | src/firmware/verify.js:41-102 | accepts exactly the images of the layout with a right checksum; every read is in bounds |
| `Boot2.VerifySegments` | src/firmware/verify.js:70-101 | the segment loop decides what remains behind the RAM header |
| `Boot2.AcceptsExactly` | src/firmware/verify.js:41-102 | the accepted byte strings are exactly the printed images whose checksum fits |
| `Boot2.ParseExact` | src/firmware/verify.js:41-101 | bytes parse as an image if and only if they are its printed form and it is laid out legally |
| `Boot2.SegmentsExact` | src/firmware/verify.js:72-92 | the segments read are exactly the placed ones whose printed form stands there |
| `Boot2.LayoutUnique` | src/firmware/verify.js:41-101 | a byte string has at most one layout |
| `Boot2.EntryInOneSegment` | src/firmware/verify.js:85-96 | the entry point lies in exactly one segment |
| `Boot2.LoadsSafely` | src/firmware/verify.js:41-102 | loading an accepted image writes only to RAM and no address twice, and the entry point is instruction RAM just written |
| `Fixtures.SmallestAccepted` | src/firmware/verify.js:41-102 | a smallest image, byte by byte, is accepted |
| `Boot2.SingleChangeRejected` | src/firmware/verify.js:54-101 | changing any one loaded byte or the checksum byte of accepted bytes makes them rejected |
| `Boot2.ChecksumDetects` | src/firmware/verify.js:55-90 | one changed byte changes the running checksum |
| `Boot2.Add` | src/firmware/verify.js:55 | the checksum loop over a stretch |
| `Firmware.VerifyFirmware` | src/firmware/verify.js:104-132 | accepts exactly genuine images: valid metadata, size, digest, trailer, signature over the body, a sound boot2 body that names its version and hardware |
| `Firmware.Includes` | src/firmware/verify.js:126-130 | the search finds a part exactly if it occurs |
| `Firmware.GenuineIsImage` | src/firmware/verify.js:104-125 | a genuine image is a printed boot2 image with a right checksum followed by its signature and length |
| `Firmware.GenuineExactly` | src/firmware/verify.js:104-132 | a release is accepted if and only if it is a well-formed image with a right checksum that names its version and hardware, followed by the signature of exactly that image and the length 256, with fitting metadata |
| `Firmware.DecimalExactly` | src/firmware/verify.js:126-128 | numbers in a version are written in decimal digits without leading zeros |
| `Firmware.CheckBinds` | src/firmware/verify.js:104-113 | up to digest collisions a genuine image is determined by its digest and has the size its metadata claims, which is what the cache assumes of its check |
| `Archive.UnpackRelease` | src/firmware/archive.js:37-88 | the loop reads the specified members, ends on every input and fails where the source throws |
| `Archive.UnpackUndoesPrint` | src/firmware/archive.js:25-88 | for either order of the two files and any allowed directories between, with or without "./", exactly the written bytes are recovered |
| `Archive.ReleaseNamesPlain` | src/firmware/archive.js:30-36 | the names allowed for any version are plain, and the manifest is not the artifact, so the round trip covers every release |
| `Archive.MemberReads` | src/firmware/archive.js:41-87 | one printed member is read as itself and skipped as a whole, wherever it stands |
| `Archive.FilesAreMembers` | src/firmware/archive.js:84 | each recovered file is the data of the member of that name |
| `Archive.AcceptedArchive` | src/firmware/archive.js:37-88 | an accepted archive has exactly the two files, in bounds and apart, and a full zero terminator behind them |
| `Archive.AcceptedMembers` | src/firmware/archive.js:37-88 | an accepted archive is nothing but headers in order, each with the right checksum, no prefix and an allowed name and type, the data they announce, and the terminator |
| `Archive.DamagedHeaderRejected` | src/firmware/archive.js:51-53 | a header with any one byte outside its checksum field changed is rejected |
| `Archive.HeaderReads` | src/firmware/archive.js:51-62 | a printed header reads back its name and size |
| `Archive.OctalFieldReads` | src/firmware/archive.js:18-22 | a printed numeric field reads back its number |
| `Archive.SumHeader` | src/firmware/archive.js:51-53 | the checksum loop counts its own field as spaces |
| `Archive.IsZero` | src/firmware/archive.js:42-46 | the zero test looks at every byte |
| `Updater.GithubUpdater.constructor` | src/firmware/github-updater.js:25-56 | a start publishes what its cache loads |
| `Updater.GithubUpdater.ReadRecords` | src/firmware/github-updater.js:88-104 | the loop over the 64 newest records publishes the intact ones |
| `Updater.GithubUpdater.Get` | src/firmware/github-updater.js:116-118 | a release is found by its version exactly if published |
| `Updater.GithubUpdater.Latest` | src/firmware/github-updater.js:119-124 | the result is the maximum of the published versions |
| `Updater.GithubUpdater.InstallRelease` | src/firmware/github-updater.js:125-171 | image, record, then publication: what is on disk and published for every point at which it may throw |
| `Updater.GithubUpdater.Refresh` | src/firmware/github-updater.js:223-263 | discovers, and unless stopped installs exactly the newest of the ten newest candidates that is an advance, verifies and can be installed, or reports there is none; published releases only advance and intact files stay intact |
| `Updater.GithubUpdater.Try` | src/firmware/github-updater.js:229-257 | the loop over the candidates does this for any list that is newest first |
| `Updater.Discover` | src/firmware/github-updater.js:172-222 | computes `Updater.Discovered` |
| `Updater.DiscoveredExactly` | src/firmware/github-updater.js:172-222 | what is found is exactly what the pages up to the first short one offer, which must be among the first five: newer ones first, in the listing's order within a version |
| `Updater.NewestFirstSorts` | src/firmware/github-updater.js:221 | the sort keeps every entry, puts newer ones first and keeps the order within a version |
| `Updater.PublishedVerify` | src/firmware/github-updater.js:88-104 | only releases whose image on disk verifies are published |
| `Updater.LoadedExactly` | src/firmware/github-updater.js:88-104 | a release is published exactly if its record is read, intact, and the last intact one of its version |
| `Updater.LatestAfterRestart` | src/firmware/github-updater.js:80-124 | a release is latest after a restart if and only if its record is intact among the 64 newest, no newer one among them is, and no intact one of its version is read later |
| `Updater.InstalledIsLatest` | src/firmware/github-updater.js:80-158 | a completely installed release is the latest after a restart if and only if its record is among the 64 newest and no other intact one among them, of those there were before, is newer or of its version and read after it |
| `Updater.CrowdedOut` | src/firmware/github-updater.js:87-88 | 64 records of newer versions, intact or not, keep a release from being latest after a restart |
| `Updater.CrowdedExample` | src/firmware/github-updater.js:87-88 | a disk with one completely installed release behind 64 unreadable records of newer versions: after a restart it is not the latest |
| `Updater.KeepsIntact` | src/firmware/github-updater.js:137-158 | an installation cut anywhere, with its renames persisted in either order, leaves every intact release as it was |
| `Updater.AddsOnlyItself` | src/firmware/github-updater.js:137-158 | it adds at most the release it installs, and adds it when complete |
| `Updater.StaysPublished` | src/firmware/github-updater.js:73-108 | after any cut an earlier intact release within the 64 newest records stays published, exactly unless an intact record of its version is read after it |
| `Updater.InstallIsAtomic` | src/firmware/github-updater.js:125-171 | with one record per version and at most 64, a restart after a cut installation publishes the old releases or those and the new one; after a complete one the latter |
| `Updater.TidyLoads` | src/firmware/github-updater.js:73-108 | such a cache publishes exactly its intact releases |
| `Updater.AdvanceRaises` | src/firmware/github-updater.js:231-232 | what a refresh installs becomes the latest and is newer than the latest before |
| `Updater.LatestNeverFalls` | src/firmware/github-updater.js:223-263 | over any sequence of refreshes the latest version never goes down |
| `Updater.LatestExists` | src/firmware/github-updater.js:119-124 | a non-empty catalogue has a latest release |
| `Semver.OlderOrder` | src/firmware/github-updater.js:83-87 | precedence of stable versions is a strict total order |
| `Semver.OlderByNumbers` | src/firmware/github-updater.js:83-87 | which version is newer: major before minor before patch |
| `Rollout.UnpinnedChoice` | src/firmware/rollout.js:45-59 | an unpinned device is offered the latest release if and only if updates are on and it is newer than what runs |
| `Rollout.PinnedChoice` | src/firmware/rollout.js:49-59 | a pinned device is offered its pin if and only if that is newer, or merely different where downgrades are allowed |
| `Rollout.AdoptionsRise` | src/firmware/rollout.js:54-59 | an unpinned device that adopts each offer sees strictly increasing versions |
| `Rollout.OffersSpaced` | src/firmware/rollout.js:60-78 | on a clock that never goes back, two offers of one version to one device with no other version between are at least the retry interval apart, over both offer paths |
| `Rollout.UnpinnedOffersSpaced` | src/firmware/rollout.js:60-78 | for an unpinned device whose latest release never falls the proviso disappears, whatever happens to other devices |
| `Rollout.LimitKeptExactly` | src/firmware/rollout.js:60-78 | a call keeps the documented limit of one offer per device, version and interval if and only if it does not offer a version offered recently that the attempts no longer remember |
| `Rollout.OfferedExactly` | src/firmware/rollout.js:45-84 | a call makes an offer if and only if a release is chosen, nothing fails, and it is not the one last offered to the device less than 600000 milliseconds ago; otherwise it changes nothing |
| `Rollout.OfferedAgain` | src/firmware/rollout.js:60-78 | the same release is offered to the same device again once ten minutes have passed, and not before |
| `Rollout.SwitchedPinRepeats` | src/firmware/rollout.js:60-65 | the proviso is needed: a pin switched away and back is offered twice at once |
| `Rollout.Offers.OfferUpdate` | src/firmware/rollout.js:45-84 | one call chooses, limits and remembers as specified |
| `Server.Server.OnOffer` | src/firmware/rollout.js:88-98 | a round offers only to open, authenticated keypads that have reported firmware and hardware |
| `Rollout.Offers.OfferConnected` | src/firmware/rollout.js:86-99 | a round over all clients is that many single calls in order |
| `Semver.PrecedenceOrder` | src/firmware/rollout.js:48-59 | precedence with pre-release identifiers (section 11 of SemVer 2.0.0) is a strict total order |
| `Semver.PrecedenceExample` | src/firmware/rollout.js:48-59 | the example of section 11 of SemVer 2.0.0 is in order |
| `Tokens.UseBound` | src/firmware/tokens.js:9-31 | over any interleaving of calls and any clock readings each token is used at most twice, before its expiry, with the device and release it was issued for; stored grants have one or two uses left |
| `Tokens.StoredSucceeds` | src/firmware/tokens.js:23-31 | a use succeeds if and only if the token is stored and not expired |
| `Tokens.TwoUses` | src/firmware/tokens.js:9-31 | until it expires an issued token is good for exactly the first two times it is presented, with the device and release it was issued for, whatever is issued and used meanwhile |
| `Tokens.IssueKeeps` | src/firmware/tokens.js:9-22 | issuing drops exactly the expired tokens and keeps the others as they are |
| `Tokens.ConsumeInv` | src/firmware/tokens.js:23-31 | every use keeps the count of uses made and uses left |
| `Tokens.IssueInv` | src/firmware/tokens.js:9-22 | issuing a new token keeps it too |
| `Tokens.OtaTokens.Issue` | src/firmware/tokens.js:9-22 | expired grants go, the new one gets two uses |
| `Tokens.OtaTokens.Sweep` | src/firmware/tokens.js:11-13 | exactly the expired grants are deleted |
| `Tokens.OtaTokens.Consume` | src/firmware/tokens.js:23-31 | a use is counted in the grant itself, and the last use or a failed one removes the token |

## Left out

- The inside of HMAC, SHA-256, RSA, X.509, gunzip and JSON: functions and already-parsed records. Where collisions matter
  the assumption is written out (`Updater.Binding`, which `Firmware.CheckBinds` derives from `Firmware.CollisionFree`).
- Sockets, TLS, HTTP routes, logging, static pages and command-line scripts: no logic of their own. The Ambilight handler
  and the download client are network clients with simple bounds; `src/message/dispatcher.js` is a direct call here.
- Delivery after `close()` or `terminate()`: a connection that the server closed delivers no further frame. What is told
  to a receiver that is closing counts as told.
- Server.Server.OnBrowserKey: raw key events of browsers are forwarded with their id and one opaque text; their other
  fields cannot be read as presence, colours or proofs by a receiver.
- Server.Server.OnFrame: encoders of frames whose fields the parser already checked do not throw in the model.
- Registration fields of browsers other than text are absent values; JSON values that are neither text nor absent are
  tags compared for equality, so an id object equals only itself.
- Server.Server.OnHealthCheck: the timing of heartbeats; a health check may end any registered connection at any time.
- SessionReplay.OldAcknowledgement: that the random nonces of one connection do not repeat is a precondition.
- SessionReplay.OldReport: the same.
- LedViews.AgreesRun: for ids no browser registers under; the exact condition for any id is `LedViews.AgreesRunExactly`.
- SessionReplay.AcceptedBeforeOffered: for devices that are never pinned during the run; the exact condition for any
  device is `SessionReplay.OrderRunExactly`.
- InstallationEvidence.InstallationIsEvidence: the upper bound of five seconds past the clock is kept as some bound.
- StoreProtocol.NoLostUpdates: files edited by other tools are not modelled; the JSON text is its entries and a size, and
  a text over four megabytes is published but unreadable. Permissions, links and the descriptor checks are left out.
- DeviceStores.DeviceStore.Register: the object's calls are shown step for step without other calls between; the
  interleavings are those of the protocol.
- The keypad's sector writer is not part of this repository: `Storage.LegalWrite` states what it is assumed to do.
- Arithmetic of the frame parser on doubles: reading up to eight bytes into a double and then requiring a safe integer is
  the same as reading an unbounded integer and requiring it to be safe.
- The general CBOR decoder of provisioning reads floats, tags, negative numbers and nested collections, too; the model
  rejects them at once, since no field accepts them and the canonical comparison follows.
- Lone surrogates in JavaScript strings: text is well-formed UTF-8.
- `readBounded` and `src/firmware/repository.js`: one-pass checks on files. Versions above the safe integers are not
  excluded.
- Updater.GithubUpdater.Refresh: one refresh at a time as in the source; download, unpacking and verification of a
  candidate are its outcome; aborts and rate limits are one outcome.
- Updater.Discover: the fields of a listed release are read beforehand, so an entry is a candidate or nothing.
- Updater.LatestAfterRestart: which of two records of one version comes first is the file system's order.
- Updater.InstallIsAtomic: for caches with one record per version and at most 64 records; the exact condition for any
  cache is `Updater.LatestAfterRestart`.
- Archive.UnpackRelease: works on the inflated bytes; the manifest's JSON and its comparison with the tag are left out.
- The session machine lets any offer be chosen where `rollout.offer` is called; which one is the subject of `Rollout.dfy`.
  The attempts are forgotten when the server closes.
- Rollout.Offers.OfferUpdate: reading the image, issuing the token, encoding and sending are one step that may fail.
- Tokens.UseBound: that random tokens do not repeat is a precondition.
