/**
 * The credential file protocol of src/security/device-store.js as file-system steps: any number of processes
 * register devices at once, every operation may fail, every process may crash and the machine may lose power
 * after every step.
 */
module StoreProtocol {
  import opened Prelude
  import opened Credentials

  type Pid = nat
  type Name = nat

  /** `reload` refuses a longer file. */
  const FILE_LIMIT := 4 * 1024 * 1024

  /** What a file holds. Files under the temporary name pass through the first two states. */
  datatype Content = Empty | Partial | Document(devices: Devices, size: nat)

  datatype Outcome = Registered(devices: Devices) | Invalid | LockHeld | Different | Failed

  /** Where a call of `register` stands. */
  datatype Pc =
    | Called
    | Locked
    | Loaded(devices: Devices)
    | Created(next: Devices)
    | Written(next: Devices)
    | Renamed(next: Devices)
    | Cleaning(outcome: Outcome)
    | Unlocking(outcome: Outcome)
    | Returned(outcome: Outcome)
    | Crashed

  /** A call, with the size of the text it would write: any size, since the JSON text itself is not modelled. */
  datatype Writer = Writer(id: Bytes, secret: Bytes, temporary: Name, size: nat, pc: Pc)

  /**
   * The file system and its processes. Until the directory is synced, a power loss may undo the renames in `unsynced`
   * from the last one back, as far as the file `durable`; `views` are the entries each process last loaded.
   */
  datatype State = State(
    published: Option<Content>,
    durable: Option<Content>,
    unsynced: seq<Content>,
    lock: bool,
    temporaries: map<Name, Content>,
    writers: map<Pid, Writer>,
    views: map<Pid, Devices>)

  datatype Event =
    | Call(pid: Pid, id: Bytes, secret: Bytes, temporary: Name, size: nat)
    | Advance(pid: Pid)
    | WriteSome(pid: Pid)
    | Fault(pid: Pid)
    | Crash(pid: Pid)
    | Reload(pid: Pid)
    | PowerLoss(keeps: nat, lockKept: bool)
    | RemoveStaleLock

  /** The entries `reload` finds, or `None` where it throws. */
  function Entries(file: Option<Content>): Option<Devices> {
    match file
    case None => Some(map[])
    case Some(Document(devices, size)) => if size > FILE_LIMIT then None else Some(devices)
    case _ => None
  }

  /** A file of up to four megabytes is read, a longer one is not, and neither is anything but a complete document. */
  lemma ReadableExactly(file: Option<Content>)
    ensures Entries(file).Some? <==> file.None? || (file.value.Document? && file.value.size <= 4194304)
    ensures Entries(file).Some? ==>
              Entries(file).value == if file.None? then map[] else file.value.devices
  {}

  function SetPc(s: State, pid: Pid, pc: Pc): State
    requires pid in s.writers
  {
    s.(writers := s.writers[pid := s.writers[pid].(pc := pc)])
  }

  /** The next operation of a call, when it succeeds. */
  function Proceed(s: State, pid: Pid): State
    requires pid in s.writers
  {
    var w := s.writers[pid];
    match w.pc
    case Called =>
      if !ValidId(w.id) || !ValidSecret(w.secret) then SetPc(s, pid, Returned(Invalid))
      else if s.lock then SetPc(s, pid, Returned(LockHeld))
      else SetPc(s, pid, Locked).(lock := true)
    case Locked =>
      (match Entries(s.published)
       case None => SetPc(s, pid, Cleaning(Failed))
       case Some(devices) => SetPc(s, pid, Loaded(devices)).(views := s.views[pid := devices]))
    case Loaded(devices) =>
      if w.id in devices then
        SetPc(s, pid,
            Cleaning(if Lower(devices[w.id].secret) == Lower(w.secret) then Registered(devices) else Different))
      else if w.temporary in s.temporaries then SetPc(s, pid, Cleaning(Failed))
      else SetPc(s, pid,
          Created(devices[w.id := NewDevice(w.secret)])).(temporaries := s.temporaries[w.temporary := Empty])
    case Created(next) =>
      SetPc(s, pid, Written(next)).(temporaries := s.temporaries[w.temporary := Document(next, w.size)])
    case Written(next) =>
      if w.temporary !in s.temporaries then SetPc(s, pid, Cleaning(Failed))
      else SetPc(s, pid, Renamed(next)).(published := Some(s.temporaries[w.temporary]),
                                         unsynced := s.unsynced + [s.temporaries[w.temporary]],
                                         temporaries := s.temporaries - {w.temporary})
    case Renamed(next) =>
      SetPc(s, pid, Cleaning(Registered(next))).(durable := s.published, unsynced := [], views := s.views[pid := next])
    case Cleaning(outcome) => SetPc(s, pid, Unlocking(outcome)).(temporaries := s.temporaries - {w.temporary})
    case Unlocking(outcome) => SetPc(s, pid, Returned(outcome)).(lock := false)
    case Returned(_) => s
    case Crashed => s
  }

  /** An operation that throws: inside the `try` it leads to the clean-up, inside the clean-up out of the call. */
  function Throw(s: State, pid: Pid): State
    requires pid in s.writers
  {
    match s.writers[pid].pc
    case Called => SetPc(s, pid, Returned(Failed))
    case Cleaning(_) => SetPc(s, pid, Returned(Failed))
    case Unlocking(_) => SetPc(s, pid, Returned(Failed))
    case Returned(_) => s
    case Crashed => s
    case _ => SetPc(s, pid, Cleaning(Failed))
  }

  function Next(s: State, e: Event): State {
    match e
    case Call(pid, id, secret, temporary, size) =>
      if pid in s.writers then s else s.(writers := s.writers[pid := Writer(id, secret, temporary, size, Called)])
    case Advance(pid) => if pid in s.writers then Proceed(s, pid) else s
    case WriteSome(pid) =>
      if pid in s.writers && s.writers[pid].pc.Created? then
        s.(temporaries := s.temporaries[s.writers[pid].temporary := Partial])
      else s
    case Fault(pid) => if pid in s.writers then Throw(s, pid) else s
    case Crash(pid) => if pid in s.writers && !s.writers[pid].pc.Returned? then SetPc(s, pid, Crashed) else s
    case Reload(pid) =>
      (match Entries(s.published)
       case None => s
       case Some(devices) => s.(views := s.views[pid := devices]))
    case PowerLoss(keeps, lockKept) =>
      var file := Survivor(s, keeps);
      State(file, file, [], s.lock && lockKept, s.temporaries,
            map pid | pid in s.writers :: if s.writers[pid].pc.Returned? then s.writers[pid]
                else s.writers[pid].(pc := Crashed),
            map[])
    // An administrator removes a lock after making sure that no writer is active.
    case RemoveStaleLock => if Unheld(s) then s.(lock := false) else s
  }

  /** The file after a power loss that leaves the first `keeps` of the renames since the last sync. */
  function Survivor(s: State, keeps: nat): Option<Content> {
    if keeps == 0 then s.durable else if keeps < |s.unsynced| then Some(s.unsynced[keeps - 1]) else s.published
  }

  /** No live call holds the lock. */
  predicate Unheld(s: State) {
    forall pid :: pid in s.writers ==> !Holds(s.writers[pid].pc)
  }

  function Run(s: State, events: seq<Event>): State
    decreases |events|
  {
    if events == [] then s else Run(Next(s, events[0]), events[1..])
  }

  /** Temporary names are UUIDs: no two calls share one, and none exists before its call. */
  ghost predicate FreshNames(s: State, e: Event) {
    e.Call? ==> e.temporary !in s.temporaries && forall pid :: pid in s.writers ==>
          s.writers[pid].temporary != e.temporary
  }

  ghost predicate FreshRun(s: State, events: seq<Event>)
    decreases |events|
  {
    events == [] || (FreshNames(s, events[0]) && FreshRun(Next(s, events[0]), events[1..]))
  }

  // ---- The invariant ----

  predicate Holds(pc: Pc) {
    pc.Locked? || pc.Loaded? || pc.Created? || pc.Written? || pc.Renamed? || pc.Cleaning? || pc.Unlocking?
  }

  predicate Complete(file: Option<Content>) {
    file.Some? ==> file.value.Document? && ValidDevices(file.value.devices)
  }

  /** The entries of a file, whatever its size. */
  function In(file: Option<Content>): Devices {
    if file.Some? && file.value.Document? then file.value.devices else map[]
  }

  predicate Has(devices: Devices, id: Bytes, secret: Bytes) {
    id in devices && Lower(devices[id].secret) == Lower(secret)
  }

  /** `next` is the published entries and the writer's own one, which they lack. */
  predicate Adds(s: State, w: Writer, next: Devices) {
    w.id !in In(s.published) && next == In(s.published)[w.id := NewDevice(w.secret)]
  }

  /** What a writer knows: its copy is current, and its replacement adds its own entry and nothing else. */
  predicate Knows(s: State, w: Writer) {
    match w.pc
    case Loaded(devices) => devices == In(s.published)
    case Created(next) => Adds(s, w, next) && w.temporary in s.temporaries
    case Written(next) => Adds(s, w, next) && w.temporary in s.temporaries
        && s.temporaries[w.temporary] == Document(next, w.size)
    case Renamed(next) => next == In(s.published) && Has(next, w.id, w.secret)
    case Cleaning(outcome) => Acknowledged(s, w, outcome)
    case Unlocking(outcome) => Acknowledged(s, w, outcome)
    case Returned(outcome) => Acknowledged(s, w, outcome)
    case _ => true
  }

  /** A successful outcome is visible in the published file. */
  predicate Acknowledged(s: State, w: Writer, outcome: Outcome) {
    outcome.Registered? ==> Has(In(s.published), w.id, w.secret)
  }

  predicate WriterOk(s: State, w: Writer) {
    (Holds(w.pc) ==> s.lock && ValidId(w.id) && ValidSecret(w.secret)) && Knows(s, w)
  }

  /** A complete file of the time since the last sync. */
  predicate Between(s: State, c: Content) {
    Complete(Some(c)) && Grows(In(s.durable), In(Some(c))) && Grows(In(Some(c)), In(s.published))
  }

  ghost predicate Files(s: State) {
    && Complete(s.published) && Complete(s.durable)
    && Grows(In(s.durable), In(s.published))
    && (forall c :: c in s.unsynced ==> Between(s, c))
    && forall pid :: pid in s.views ==> Grows(s.views[pid], In(s.published))
  }

  /** At most one call holds the lock, and no two share a temporary name. */
  ghost predicate Exclusive(s: State) {
    && (forall p, q :: p in s.writers && q in s.writers && Holds(s.writers[p].pc) && Holds(s.writers[q].pc) ==> p == q)
    && (forall p, q :: p in s.writers && q in s.writers && s.writers[p].temporary == s.writers[q].temporary ==> p == q)
  }

  ghost predicate Inv(s: State) {
    Files(s) && Exclusive(s) && forall pid :: pid in s.writers ==> WriterOk(s, s.writers[pid])
  }

  // ---- One step keeps the invariant ----

  /** A call that is not stepping is undisturbed, unless it holds the lock and something it relies on moved. */
  lemma OtherOk(s: State, t: State, w: Writer)
    requires WriterOk(s, w)
    requires Grows(In(s.published), In(t.published))
    requires Holds(w.pc) ==> t.lock && t.published == s.published
    requires w.temporary in s.temporaries ==>
               w.temporary in t.temporaries && t.temporaries[w.temporary] == s.temporaries[w.temporary]
    ensures WriterOk(t, w)
  {
    hide ValidId, ValidSecret, Lower;
  }

  /** What a step of call `pid` may touch. */
  ghost predicate Frame(s: State, t: State, pid: Pid)
    requires pid in s.writers && pid in t.writers
  {
    && t.writers == s.writers[pid := t.writers[pid]]
    && t.writers[pid] == s.writers[pid].(pc := t.writers[pid].pc)
    && (forall name :: name in s.temporaries && name != s.writers[pid].temporary ==>
          name in t.temporaries && t.temporaries[name] == s.temporaries[name])
    && (Holds(t.writers[pid].pc) && !Holds(s.writers[pid].pc) ==> !s.lock)
    && (t.published != s.published || t.lock != s.lock ==> Holds(s.writers[pid].pc) || !s.lock)
    && (t.published != s.published ==> Holds(s.writers[pid].pc))
    && Grows(In(s.published), In(t.published))
  }

  lemma Assemble(s: State, t: State, pid: Pid)
    requires Inv(s) && pid in s.writers && pid in t.writers
    requires Files(t) && Frame(s, t, pid) && WriterOk(t, t.writers[pid])
    ensures Inv(t)
  {
    hide Knows, Files, Grows, Complete, Holds, ValidId, ValidSecret;
    forall q | q in t.writers ensures WriterOk(t, t.writers[q]) {
      if q != pid {
        OtherOk(s, t, s.writers[q]);
      }
    }
  }

  /** The entries a holder publishes. */
  lemma AddsGrows(s: State, w: Writer, next: Devices)
    requires Complete(s.published) && Adds(s, w, next) && ValidId(w.id) && ValidSecret(w.secret)
    ensures Grows(In(s.published), next) && ValidDevices(next) && Has(next, w.id, w.secret)
  {
    RegisterGrows(In(s.published), w.id, w.secret);
  }

  lemma GrowsThrough(a: Devices, b: Devices, c: Devices)
    requires Grows(a, b) && Grows(b, c)
    ensures Grows(a, c)
  {}

  lemma FilesStay(s: State, t: State, pid: Pid)
    requires Files(s) && t.published == s.published && t.durable == s.durable && t.unsynced == s.unsynced
    requires t.views == s.views || t.views == s.views[pid := In(s.published)]
    ensures Files(t)
  {
    hide Complete;
  }

  lemma ProceedCalled(s: State, pid: Pid)
    requires Inv(s) && pid in s.writers && s.writers[pid].pc.Called?
    ensures Inv(Proceed(s, pid)) && Proceed(s, pid).published == s.published
  {
    hide ValidId, ValidSecret, Lower, ValidDevices, Grows, Has, Adds;
    var t := Proceed(s, pid);
    FilesStay(s, t, pid);
    GrowsSelf(In(s.published));
    Assemble(s, t, pid);
  }

  lemma ProceedLocked(s: State, pid: Pid)
    requires Inv(s) && pid in s.writers && s.writers[pid].pc.Locked?
    ensures Inv(Proceed(s, pid)) && Proceed(s, pid).published == s.published
  {
    hide ValidId, ValidSecret, Lower, ValidDevices, Grows, Has, Adds;
    var t := Proceed(s, pid);
    FilesStay(s, t, pid);
    GrowsSelf(In(s.published));
    Assemble(s, t, pid);
  }

  lemma ProceedLoaded(s: State, pid: Pid)
    requires Inv(s) && pid in s.writers && s.writers[pid].pc.Loaded?
    ensures Inv(Proceed(s, pid)) && Proceed(s, pid).published == s.published
  {
    hide ValidId, ValidSecret, Lower, ValidDevices;
    var t := Proceed(s, pid);
    FilesStay(s, t, pid);
    Assemble(s, t, pid);
  }

  lemma ProceedCreated(s: State, pid: Pid)
    requires Inv(s) && pid in s.writers && s.writers[pid].pc.Created?
    ensures Inv(Proceed(s, pid)) && Proceed(s, pid).published == s.published
  {
    hide ValidId, ValidSecret, Lower, ValidDevices;
    var t := Proceed(s, pid);
    FilesStay(s, t, pid);
    Assemble(s, t, pid);
  }

  lemma ProceedWritten(s: State, pid: Pid)
    requires Inv(s) && pid in s.writers && s.writers[pid].pc.Written?
    ensures Inv(Proceed(s, pid)) && Grows(In(s.published), In(Proceed(s, pid).published))
  {
    hide ValidId, ValidSecret, Lower, ValidDevices, Grows;
    var w, t := s.writers[pid], Proceed(s, pid);
    AddsGrows(s, w, w.pc.next);
    GrowsThrough(In(s.durable), In(s.published), In(t.published));
    forall p | p in t.views ensures Grows(t.views[p], In(t.published)) {
      GrowsThrough(t.views[p], In(s.published), In(t.published));
    }
    GrowsSelf(In(t.published));
    forall c | c in t.unsynced ensures Between(t, c) {
      if c in s.unsynced {
        assert Between(s, c);
        GrowsThrough(In(Some(c)), In(s.published), In(t.published));
      }
    }
    Assemble(s, t, pid);
  }

  lemma ProceedRenamed(s: State, pid: Pid)
    requires Inv(s) && pid in s.writers && s.writers[pid].pc.Renamed?
    ensures Inv(Proceed(s, pid)) && Proceed(s, pid).published == s.published
  {
    hide ValidId, ValidSecret, Lower, ValidDevices;
    Assemble(s, Proceed(s, pid), pid);
  }

  lemma ProceedEnding(s: State, pid: Pid)
    requires Inv(s) && pid in s.writers && (s.writers[pid].pc.Cleaning? || s.writers[pid].pc.Unlocking?)
    ensures Inv(Proceed(s, pid)) && Proceed(s, pid).published == s.published
  {
    hide ValidId, ValidSecret, Lower, ValidDevices;
    var t := Proceed(s, pid);
    FilesStay(s, t, pid);
    Assemble(s, t, pid);
  }

  lemma ThrowStep(s: State, pid: Pid)
    requires Inv(s) && pid in s.writers
    ensures Inv(Throw(s, pid)) && Throw(s, pid).published == s.published
  {
    hide ValidId, ValidSecret, ValidDevices, Grows, Has, Adds;
    var t := Throw(s, pid);
    if !(s.writers[pid].pc.Returned? || s.writers[pid].pc.Crashed?) {
      FilesStay(s, t, pid);
      assert Grows(In(s.published), In(t.published)) by { GrowsSelf(In(s.published)); }
      Assemble(s, t, pid);
    }
  }

  lemma GrowsSelf(devices: Devices)
    ensures Grows(devices, devices)
  {}

  lemma CrashStep(s: State, pid: Pid)
    requires Inv(s) && pid in s.writers
    ensures Inv(SetPc(s, pid, Crashed)) && SetPc(s, pid, Crashed).published == s.published
  {
    hide ValidId, ValidSecret, ValidDevices, Grows, Has, Adds;
    var t := SetPc(s, pid, Crashed);
    FilesStay(s, t, pid);
    assert Grows(In(s.published), In(t.published)) by { GrowsSelf(In(s.published)); }
    Assemble(s, t, pid);
  }

  lemma CallStep(s: State, e: Event)
    requires Inv(s) && FreshNames(s, e) && e.Call?
    ensures Inv(Next(s, e)) && Next(s, e).published == s.published
  {
    hide ValidId, ValidSecret, Lower, ValidDevices, Grows;
  }

  lemma WriteSomeStep(s: State, e: Event)
    requires Inv(s) && e.WriteSome?
    ensures Inv(Next(s, e)) && Next(s, e).published == s.published
  {
    hide ValidId, ValidSecret, Lower, ValidDevices, Grows;
    if e.pid in s.writers && s.writers[e.pid].pc.Created? {
      var t := Next(s, e);
      FilesStay(s, t, e.pid);
      assert t.writers == s.writers[e.pid := t.writers[e.pid]];
      GrowsSelf(In(s.published));
      Assemble(s, t, e.pid);
    }
  }

  lemma {:induction false} InvStep(s: State, e: Event)
    requires Inv(s) && FreshNames(s, e) && !e.PowerLoss?
    ensures Inv(Next(s, e)) && Grows(In(s.published), In(Next(s, e).published))
  {
    hide Inv, Files, In, SetPc, Throw;
    match e {
      case Advance(pid) =>
        if pid in s.writers {
          match s.writers[pid].pc {
            case Called => ProceedCalled(s, pid);
            case Locked => ProceedLocked(s, pid);
            case Loaded(_) => ProceedLoaded(s, pid);
            case Created(_) => ProceedCreated(s, pid);
            case Written(_) => ProceedWritten(s, pid);
            case Renamed(_) => ProceedRenamed(s, pid);
            case Cleaning(_) => ProceedEnding(s, pid);
            case Unlocking(_) => ProceedEnding(s, pid);
            case _ => assert Proceed(s, pid) == s;
          }
        }
      case Fault(pid) => if pid in s.writers { ThrowStep(s, pid); }
      case Crash(pid) => if pid in s.writers { CrashStep(s, pid); }
      case Call(_, _, _, _, _) => CallStep(s, e);
      case WriteSome(_) => WriteSomeStep(s, e);
      case Reload(_) => ReloadStep(s, e);
      case RemoveStaleLock => UnlockStep(s);
    }
  }

  lemma UnlockStep(s: State)
    requires Inv(s)
    ensures Inv(Next(s, RemoveStaleLock)) && Next(s, RemoveStaleLock).published == s.published
  {
    hide ValidId, ValidSecret, Grows, Complete, Knows;
    var t := Next(s, RemoveStaleLock);
    FilesStay(s, t, 0);
    assert Grows(In(s.published), In(t.published)) by { GrowsSelf(In(s.published)); }
    forall q | q in s.writers ensures WriterOk(t, s.writers[q]) {
      OtherOk(s, t, s.writers[q]);
    }
  }

  lemma ReloadStep(s: State, e: Event)
    requires Inv(s) && e.Reload?
    ensures Inv(Next(s, e)) && Next(s, e).published == s.published
  {
    hide ValidId, ValidSecret, Lower, ValidDevices, Grows, Complete;
    FilesStay(s, Next(s, e), e.pid);
    forall q | q in s.writers ensures WriterOk(Next(s, e), s.writers[q]) {
    }
  }

  // ---- Whole runs ----

  /**
   * A power loss: every process dies, and the published file is the last synced one or a complete one renamed into its
   * place since.
   */
  lemma PowerLossStep(s: State, e: Event)
    requires Inv(s) && e.PowerLoss?
    ensures var t := Next(s, e);
            && Files(t) && Exclusive(t)
            && (forall pid :: pid in t.writers ==> !Holds(t.writers[pid].pc))
            && t.published in Survivors(s) && t.published == Survivor(s, e.keeps)
            && Grows(In(s.durable), In(t.published)) && Grows(In(t.published), In(s.published))
  {
    hide Grows, Complete, WriterOk, In;
    GrowsSelf(In(s.durable));
    GrowsSelf(In(s.published));
    GrowsSelf(In(Next(s, e).published));
    if 0 < e.keeps < |s.unsynced| {
      assert Between(s, s.unsynced[e.keeps - 1]);
    }
  }

  /** Every file a power loss may leave. */
  function Survivors(s: State): set<Option<Content>> {
    {s.durable, s.published} + set c | c in s.unsynced :: Some(c)
  }

  predicate NoPowerLoss(events: seq<Event>) {
    forall i :: 0 <= i < |events| ==> !events[i].PowerLoss?
  }

  /**
   * No lost updates: over any interleaving of any calls, faults and crashes, the published file is one complete
   * state, no entry is lost or changed, every acknowledged entry is there, and so is every entry any reader saw.
   */
  lemma {:induction false} NoLostUpdates(s: State, events: seq<Event>)
    requires Inv(s) && FreshRun(s, events) && NoPowerLoss(events)
    ensures Inv(Run(s, events)) && Grows(In(s.published), In(Run(s, events).published))
    decreases |events|
  {
    hide Inv, FreshNames, Next, Grows;
    if events == [] {
      GrowsSelf(In(s.published));
    } else {
      var t := Next(s, events[0]);
      InvStep(s, events[0]);
      NoLostUpdates(t, events[1..]);
      GrowsThrough(In(s.published), In(t.published), In(Run(t, events[1..]).published));
    }
  }

  /** Without a lock and without calls the invariant is only about the file. */
  lemma InitialInv(file: Option<Content>)
    requires Complete(file)
    ensures Inv(State(file, file, [], false, map[], map[], map[]))
  {}

  /** Only the call that took the lock removes it, and only as its last step. */
  lemma LockRemovedByHolder(s: State, e: Event)
    requires Inv(s) && s.lock && !e.PowerLoss? && !e.RemoveStaleLock? && !Next(s, e).lock
    ensures e.Advance? && e.pid in s.writers && s.writers[e.pid].pc.Unlocking?
    ensures forall q :: q in s.writers && Holds(s.writers[q].pc) ==> q == e.pid
  {
    hide ValidId, ValidSecret, Lower, ValidDevices, Grows, Knows;
  }

  /** A call that finds the lock taken returns, and from then on changes nothing. */
  lemma RefusedTouchesNothing(s: State, pid: Pid)
    requires pid in s.writers && s.lock && s.writers[pid].pc.Called? && ValidId(s.writers[pid].id)
    requires ValidSecret(s.writers[pid].secret)
    ensures Proceed(s, pid) == s.(writers := s.writers[pid := s.writers[pid].(pc := Returned(LockHeld))])
    ensures forall t: State, e | e == Advance(pid) || e == Fault(pid) || e == Crash(pid) || e == WriteSome(pid)
              :: pid in t.writers && t.writers[pid].pc == Returned(LockHeld) ==> Next(t, e) == t
  {
    hide ValidId, ValidSecret;
  }

  /** The lock of a holder that is gone. */
  predicate Abandoned(s: State) {
    s.lock && Unheld(s)
  }

  /** Nothing but a call may remove the lock. */
  predicate LockSurvives(events: seq<Event>) {
    forall i :: 0 <= i < |events| ==> !events[i].RemoveStaleLock? && (events[i].PowerLoss? ==> events[i].lockKept)
  }

  lemma AbandonedStep(s: State, e: Event)
    requires Abandoned(s) && !e.RemoveStaleLock? && (e.PowerLoss? ==> e.lockKept)
    ensures var t := Next(s, e);
            && Abandoned(t)
            && (!e.PowerLoss? ==> t.published == s.published && t.durable == s.durable && t.unsynced == s.unsynced)
            && (forall pid :: pid in t.writers && t.writers[pid].pc.Returned? && t.writers[pid].pc.outcome.Registered?
                  ==> pid in s.writers && s.writers[pid] == t.writers[pid])
  {
    hide ValidId, ValidSecret, Lower, Grows;
  }

  /** A crashed holder blocks later writers: the file stays as it is, and no further call succeeds. */
  lemma {:induction false} AbandonedBlocks(s: State, events: seq<Event>)
    requires Abandoned(s) && LockSurvives(events)
    ensures var t := Run(s, events);
            && Abandoned(t)
            && (NoPowerLoss(events) ==> t.published == s.published)
            && (forall pid :: pid in t.writers && t.writers[pid].pc.Returned? && t.writers[pid].pc.outcome.Registered?
                  ==> pid in s.writers && s.writers[pid] == t.writers[pid])
    decreases |events|
  {
    hide Abandoned, Next;
    if events != [] {
      AbandonedStep(s, events[0]);
      assert forall i :: 0 <= i < |events| - 1 ==> events[1..][i] == events[i + 1];
      AbandonedBlocks(Next(s, events[0]), events[1..]);
    }
  }

  /** A holder that crashes before its last step leaves the lock behind. */
  lemma CrashAbandons(s: State, pid: Pid)
    requires Inv(s) && pid in s.writers && Holds(s.writers[pid].pc)
    ensures Abandoned(Next(s, Crash(pid)))
  {
    hide ValidId, ValidSecret, Lower, ValidDevices, Grows, Knows, Files;
  }

  // ---- Power loss ----

  /** Every acknowledged entry is in the file a power loss falls back to. */
  predicate Kept(s: State, w: Writer) {
    (w.pc.Cleaning? || w.pc.Unlocking? || w.pc.Returned?) && w.pc.outcome.Registered? ==>
          Has(In(s.durable), w.id, w.secret)
  }

  predicate Succeeded(pc: Pc) {
    pc.Returned? && pc.outcome.Registered?
  }

  ghost predicate AllKept(s: State) {
    forall pid :: pid in s.writers ==> Kept(s, s.writers[pid])
  }

  /** A call that has loaded the file is about to acknowledge an entry that no directory sync has made durable. */
  predicate Unsynced(s: State, e: Event) {
    && e.Advance? && e.pid in s.writers && s.writers[e.pid].pc.Loaded?
    && var w := s.writers[e.pid];
       Has(w.pc.devices, w.id, w.secret) && !Has(In(s.durable), w.id, w.secret)
  }

  /** Whichever renames a power loss undoes, the acknowledged entry is there afterwards. */
  ghost predicate Survives(s: State, w: Writer) {
    forall keeps, lockKept :: Has(In(Next(s, PowerLoss(keeps, lockKept)).published), w.id, w.secret)
  }

  /** An acknowledged entry survives whatever a power loss undoes exactly if it is in the last synced file. */
  lemma PowerLossTakes(s: State, pid: Pid)
    requires Inv(s) && pid in s.writers && Succeeded(s.writers[pid].pc)
    ensures Survives(s, s.writers[pid]) <==> Kept(s, s.writers[pid])
  {
    hide Lower, Files, Exclusive, WriterOk, Next;
    var w := s.writers[pid];
    if Kept(s, w) {
      forall keeps, lockKept ensures Has(In(Next(s, PowerLoss(keeps, lockKept)).published), w.id, w.secret) {
        PowerLossStep(s, PowerLoss(keeps, lockKept));
      }
    } else {
      assert Next(s, PowerLoss(0, true)).published == s.durable by { PowerLossStep(s, PowerLoss(0, true)); }
    }
  }

  /** The acknowledgements of a call that is not stepping stay on disk. */
  lemma OthersKept(s: State, t: State, pid: Pid)
    requires Grows(In(s.durable), In(t.durable))
    requires AllKept(s)
    requires pid in s.writers && pid in t.writers && t.writers == s.writers[pid := t.writers[pid]]
    requires Kept(t, t.writers[pid])
    ensures AllKept(t)
  {
    hide Lower;
  }

  predicate Early(pc: Pc) {
    pc.Called? || pc.Locked? || pc.Loaded?
  }

  lemma OnlyOwnWriterEarly(s: State, pid: Pid)
    requires pid in s.writers && Early(s.writers[pid].pc)
    ensures var t := Proceed(s, pid); pid in t.writers && t.writers == s.writers[pid := t.writers[pid]]
  {
    hide ValidId, ValidSecret, Lower, Entries;
  }

  lemma OnlyOwnWriterLate(s: State, pid: Pid)
    requires pid in s.writers && !Early(s.writers[pid].pc)
    ensures var t := Proceed(s, pid); pid in t.writers && t.writers == s.writers[pid := t.writers[pid]]
  {
    hide ValidId, ValidSecret, Lower, Entries;
  }

  lemma OnlyOwnWriter(s: State, pid: Pid)
    requires pid in s.writers
    ensures var t := Proceed(s, pid); pid in t.writers && t.writers == s.writers[pid := t.writers[pid]]
    ensures s.writers[pid].pc.Returned? ==> Proceed(s, pid) == s
  {
    if Early(s.writers[pid].pc) {
      hide *;
      OnlyOwnWriterEarly(s, pid);
    } else {
      if s.writers[pid].pc.Returned? {
        hide ValidId, ValidSecret, Lower, Entries;
      } else {
        hide *;
      }
      OnlyOwnWriterLate(s, pid);
    }
  }

  /** A step of a call keeps its own acknowledgement unless that is the unsynced one. */
  lemma OwnKeptEarly(s: State, pid: Pid)
    requires Inv(s) && pid in s.writers && Early(s.writers[pid].pc)
    ensures var t := Proceed(s, pid);
            pid in t.writers && t.durable == s.durable && (Kept(t, t.writers[pid]) <==> !Unsynced(s, Advance(pid)))
  {
    hide ValidId, ValidSecret, Lower, ValidDevices, Grows, Adds, Exclusive, Files;
    assert WriterOk(s, s.writers[pid]);
  }

  lemma OwnKeptLate(s: State, pid: Pid)
    requires Inv(s) && AllKept(s) && pid in s.writers && !Early(s.writers[pid].pc)
    ensures var t := Proceed(s, pid); pid in t.writers && Kept(t, t.writers[pid]) && Grows(In(s.durable), In(t.durable))
  {
    hide ValidId, ValidSecret, Lower, ValidDevices, Grows, Adds, Exclusive, Complete;
    GrowsSelf(In(s.durable));
    assert WriterOk(s, s.writers[pid]) && Kept(s, s.writers[pid]);
  }

  lemma AdvanceKeeps(s: State, pid: Pid)
    requires Inv(s) && AllKept(s) && pid in s.writers
    ensures AllKept(Proceed(s, pid)) <==> !Unsynced(s, Advance(pid))
  {
    hide Inv, Kept, Grows, Proceed, Has;
    var t := Proceed(s, pid);
    OnlyOwnWriter(s, pid);
    if Early(s.writers[pid].pc) {
      OwnKeptEarly(s, pid);
      GrowsSelf(In(s.durable));
    } else {
      OwnKeptLate(s, pid);
    }
    if Kept(t, t.writers[pid]) {
      OthersKept(s, t, pid);
    }
  }

  lemma OthersKeep(s: State, e: Event)
    requires AllKept(s) && !e.Advance? && !e.PowerLoss?
    ensures AllKept(Next(s, e))
  {
    hide ValidId, ValidSecret, Lower, Grows, Has;
  }

  lemma KeptAfterPowerLoss(s: State, t: State, w: Writer)
    requires Kept(s, w) && t.durable == t.published && Grows(In(s.durable), In(t.published))
    ensures w.pc.Returned? ==> Kept(t, w) && WriterOk(t, w)
    ensures Kept(t, w.(pc := Crashed)) && WriterOk(t, w.(pc := Crashed))
  {
    hide ValidId, ValidSecret, Lower;
  }

  lemma PowerLossKeeps(s: State, e: Event)
    requires Inv(s) && AllKept(s) && e.PowerLoss?
    ensures AllKept(Next(s, e)) && Inv(Next(s, e))
  {
    hide ValidId, ValidSecret, Lower, Complete, Grows;
    var t := Next(s, e);
    PowerLossStep(s, e);
    forall q | q in t.writers ensures Kept(t, t.writers[q]) && WriterOk(t, t.writers[q]) {
      KeptAfterPowerLoss(s, t, s.writers[q]);
    }
  }

  /** Of all events exactly an unsynced acknowledgement endangers what was acknowledged. */
  lemma KeptStepExactly(s: State, e: Event)
    requires Inv(s) && AllKept(s) && FreshNames(s, e)
    ensures Inv(Next(s, e))
    ensures AllKept(Next(s, e)) <==> !Unsynced(s, e)
  {
    hide Inv, AllKept, Proceed, Throw, FreshNames, Has;
    if e.PowerLoss? {
      PowerLossKeeps(s, e);
    } else {
      InvStep(s, e);
      if !e.Advance? {
        OthersKeep(s, e);
      } else if e.pid in s.writers {
        AdvanceKeeps(s, e.pid);
      }
    }
  }

  /** Every acknowledgement is durable in every state of the run. */
  ghost predicate KeptAlong(s: State, events: seq<Event>)
    decreases |events|
  {
    AllKept(s) && (events == [] || KeptAlong(Next(s, events[0]), events[1..]))
  }

  ghost predicate NoneUnsynced(s: State, events: seq<Event>)
    decreases |events|
  {
    events == [] || (!Unsynced(s, events[0]) && NoneUnsynced(Next(s, events[0]), events[1..]))
  }

  /**
   * Durability, exactly: over any run, with any number of power losses, every acknowledged entry stays where a power
   * loss cannot take it if and only if no call acknowledges an entry it found before that entry was synced.
   */
  lemma {:induction false} DurableExactly(s: State, events: seq<Event>)
    requires Inv(s) && AllKept(s) && FreshRun(s, events)
    ensures KeptAlong(s, events) <==> NoneUnsynced(s, events)
    decreases |events|
  {
    hide Inv, AllKept, Next, FreshNames, Unsynced;
    if events != [] {
      KeptStepExactly(s, events[0]);
      if !Unsynced(s, events[0]) {
        DurableExactly(Next(s, events[0]), events[1..]);
      } else {
        NotKept(Next(s, events[0]), events[1..]);
      }
    }
  }

  lemma NotKept(s: State, events: seq<Event>)
    requires !AllKept(s)
    ensures !KeptAlong(s, events)
  {}

  /** As long as no acknowledgement is unsynced, acknowledged registrations survive any run with any power losses. */
  lemma {:induction false} AcknowledgedSurvive(s: State, events: seq<Event>)
    requires Inv(s) && AllKept(s) && FreshRun(s, events) && NoneUnsynced(s, events)
    ensures var t := Run(s, events);
            && Inv(t) && AllKept(t)
            && forall pid :: pid in s.writers && Succeeded(s.writers[pid].pc) ==>
                 && pid in t.writers && t.writers[pid] == s.writers[pid]
                 && Has(In(t.published), s.writers[pid].id, s.writers[pid].secret)
    decreases |events|
  {
    hide AllKept, Next, FreshNames, Has, Unsynced, Files, Exclusive;
    if events == [] {
      assert forall pid :: pid in s.writers ==> WriterOk(s, s.writers[pid]);
    } else {
      KeptStepExactly(s, events[0]);
      ReturnedStays(s, events[0]);
      AcknowledgedSurvive(Next(s, events[0]), events[1..]);
    }
  }

  lemma ReturnedStays(s: State, e: Event)
    ensures forall pid :: pid in s.writers && s.writers[pid].pc.Returned? ==>
              pid in Next(s, e).writers && Next(s, e).writers[pid] == s.writers[pid]
  {
    hide Proceed;
    if e.Advance? && e.pid in s.writers {
      OnlyOwnWriter(s, e.pid);
    }
  }

  // ---- Where nothing stays unsynced ----

  /** The published file can be ahead of the synced one only while a call is between its rename and its sync. */
  ghost predicate Level(s: State) {
    s.durable == s.published || Abandoned(s) || exists pid :: pid in s.writers && s.writers[pid].pc.Renamed?
  }

  /** A directory sync fails, or a lock is removed while a rename behind it is not synced. */
  predicate Lapses(s: State, e: Event) {
    || (e.Fault? && e.pid in s.writers && s.writers[e.pid].pc.Renamed?)
    || (e.RemoveStaleLock? && s.durable != s.published)
  }

  ghost predicate NoLapse(s: State, events: seq<Event>)
    decreases |events|
  {
    events == [] || (!Lapses(s, events[0]) && NoLapse(Next(s, events[0]), events[1..]))
  }

  /** What the lock holder may rely on before it renames. */
  lemma HolderLevel(s: State, pid: Pid)
    requires Inv(s) && Level(s) && pid in s.writers && Holds(s.writers[pid].pc) && !s.writers[pid].pc.Renamed?
    ensures s.durable == s.published
  {
    hide Files, WriterOk;
  }

  /** A step of a call without the lock moves nothing the gap depends on. */
  lemma LevelOutside(s: State, t: State, pid: Pid)
    requires Inv(s) && Level(s) && pid in s.writers && pid in t.writers && !Holds(s.writers[pid].pc)
    requires t.writers == s.writers[pid := t.writers[pid]] && t.durable == s.durable && t.published == s.published
    requires s.lock ==> t.lock && !Holds(t.writers[pid].pc)
    ensures Level(t)
  {
    hide Files, Knows, ValidId, ValidSecret;
    if s.durable != s.published && !Abandoned(s) {
      var q :| q in s.writers && s.writers[q].pc.Renamed?;
      assert t.writers[q].pc.Renamed?;
    }
  }

  lemma LevelAdvance(s: State, pid: Pid)
    requires Inv(s) && Level(s) && pid in s.writers
    ensures Level(Proceed(s, pid))
  {
    hide ValidId, ValidSecret, Lower, Files, Knows, Adds;
    var t, pc := Proceed(s, pid), s.writers[pid].pc;
    if !Holds(pc) {
      LevelOutside(s, t, pid);
    } else if !pc.Renamed? {
      HolderLevel(s, pid);
      assert t.writers[pid].pc.Renamed? || t.published == s.published;
    }
  }

  lemma LevelFault(s: State, pid: Pid)
    requires Inv(s) && Level(s) && pid in s.writers && !s.writers[pid].pc.Renamed?
    ensures Level(Throw(s, pid))
  {
    hide ValidId, ValidSecret, Lower, Files, Knows, Grows, Has;
    if Holds(s.writers[pid].pc) {
      HolderLevel(s, pid);
    } else {
      LevelOutside(s, Throw(s, pid), pid);
    }
  }

  lemma LevelCrash(s: State, pid: Pid)
    requires Inv(s) && Level(s) && pid in s.writers
    ensures Level(Next(s, Crash(pid)))
  {
    hide ValidId, ValidSecret, Lower, Files, Knows, Grows, Has;
    if Holds(s.writers[pid].pc) {
      CrashAbandons(s, pid);
    } else {
      LevelOutside(s, Next(s, Crash(pid)), pid);
    }
  }

  lemma LevelIdle(s: State, e: Event)
    requires Inv(s) && Level(s) && (e.Call? || e.WriteSome? || e.Reload?)
    ensures Level(Next(s, e))
  {
    hide ValidId, ValidSecret, Lower, Files, Knows, Grows, Has;
    var t := Next(s, e);
    if s.durable != s.published && !Abandoned(s) {
      var q :| q in s.writers && s.writers[q].pc.Renamed?;
      assert t.writers[q].pc.Renamed?;
    }
  }

  lemma LevelUnlock(s: State)
    requires Level(s) && s.durable == s.published
    ensures Level(Next(s, RemoveStaleLock))
  {}

  lemma LevelStep(s: State, e: Event)
    requires Inv(s) && Level(s) && !Lapses(s, e)
    ensures Level(Next(s, e))
  {
    hide Inv, Proceed, Throw;
    match e {
      case Advance(pid) => if pid in s.writers { LevelAdvance(s, pid); }
      case Fault(pid) => if pid in s.writers { LevelFault(s, pid); }
      case Crash(pid) => if pid in s.writers { LevelCrash(s, pid); }
      case PowerLoss(_, _) =>
      case RemoveStaleLock => LevelUnlock(s);
      case _ => LevelIdle(s, e);
    }
  }

  lemma LevelIsSynced(s: State, e: Event)
    requires Inv(s) && Level(s)
    ensures !Unsynced(s, e)
  {
    hide ValidId, ValidSecret, Lower, Files, Exclusive, Level;
    if e.Advance? && e.pid in s.writers && s.writers[e.pid].pc.Loaded? {
      HolderLevel(s, e.pid);
      assert WriterOk(s, s.writers[e.pid]);
    }
  }

  /** While directory syncs succeed and no lock hides an unsynced rename, no acknowledgement is unsynced. */
  lemma {:induction false} NoLapseSuffices(s: State, events: seq<Event>)
    requires Inv(s) && AllKept(s) && Level(s) && FreshRun(s, events) && NoLapse(s, events)
    ensures NoneUnsynced(s, events)
    decreases |events|
  {
    hide Inv, AllKept, Level, Next, FreshNames, Unsynced, Lapses;
    if events != [] {
      LevelIsSynced(s, events[0]);
      KeptStepExactly(s, events[0]);
      LevelStep(s, events[0]);
      NoLapseSuffices(Next(s, events[0]), events[1..]);
    }
  }

  lemma {:induction false} RunAppend(s: State, events: seq<Event>, more: seq<Event>)
    ensures Run(s, events + more) == Run(Run(s, events), more)
    decreases |events|
  {
    hide Next;
    if events == [] {
      assert events + more == more;
    } else {
      assert (events + more)[1..] == events[1..] + more;
      RunAppend(Next(s, events[0]), events[1..], more);
    }
  }

  // ---- Two runs that lose an acknowledged entry ----

  const EMPTY := State(None, None, [], false, map[], map[], map[])

  /** A call up to its rename. */
  function UpToRename(id: Bytes, secret: Bytes): seq<Event> {
    [Call(0, id, secret, 0, 200), Advance(0), Advance(0), Advance(0), Advance(0), Advance(0)]
  }

  /** Its directory sync fails. */
  const FAILED_SYNC: seq<Event> := [Fault(0), Advance(0), Advance(0)]

  /** Or it crashes, and an administrator removes its lock. */
  const STALE_LOCK: seq<Event> := [Crash(0), RemoveStaleLock]

  /** The same registration, sent again. */
  function Retry(id: Bytes, secret: Bytes): seq<Event> {
    [Call(1, id, secret, 1, 200), Advance(1), Advance(1), Advance(1), Advance(1), Advance(1)]
  }

  lemma RunSix(s: State, e: seq<Event>)
    requires |e| == 6
    ensures Run(s, e) == Next(Next(Next(Next(Next(Next(s, e[0]), e[1]), e[2]), e[3]), e[4]), e[5])
  {
    hide Next;
    RunThree(s, e);
    RunThree(Next(Next(Next(s, e[0]), e[1]), e[2]), e[3..]);
  }

  lemma RunThree(s: State, e: seq<Event>)
    requires |e| >= 3
    ensures Run(s, e) == Run(Next(Next(Next(s, e[0]), e[1]), e[2]), e[3..])
  {
    hide Next;
    assert e[1..][1..] == e[2..] && e[2..][1..] == e[3..];
  }

  lemma AfterRename(id: Bytes, secret: Bytes)
    requires ValidId(id) && ValidSecret(secret)
    ensures var next: Devices := map[id := NewDevice(secret)];
            Run(EMPTY, UpToRename(id, secret)) ==
            State(Some(Document(next, 200)), None, [Document(next, 200)], true, map[],
                map[0 := Writer(id, secret, 0, 200, Renamed(next))], map[0 := map[]])
  {
    hide ValidId, ValidSecret, Lower;
    var e := UpToRename(id, secret);
    var w := Writer(id, secret, 0, 200, Called);
    var next: Devices := map[id := NewDevice(secret)];
    RunSix(EMPTY, e);
    var s1 := Next(EMPTY, e[0]);
    assert s1 == EMPTY.(writers := map[0 := w]);
    var s3 := Next(Next(s1, e[1]), e[2]);
    assert s3 == State(None, None, [], true, map[], map[0 := w.(pc := Loaded(map[]))], map[0 := map[]]);
    var s5 := Next(Next(s3, e[3]), e[4]);
    assert s5 == State(None, None, [], true, map[0 := Document(next, 200)], map[0 := w.(pc := Written(next))],
           map[0 := map[]]);
  }

  /** Either way the entry is published, not synced, and the lock is free. */
  lemma AfterLapse(s: State, lapse: seq<Event>, id: Bytes, secret: Bytes, next: Devices)
    requires lapse == FAILED_SYNC || lapse == STALE_LOCK
    requires s == State(Some(Document(next, 200)), None, [Document(next, 200)], true, map[],
             map[0 := Writer(id, secret, 0, 200, Renamed(next))], map[0 := map[]])
    ensures var t := Run(s, lapse);
            t.published == s.published && t.durable == None && !t.lock && 1 !in t.writers
  {
    hide ValidId, ValidSecret, Lower;
    if lapse == FAILED_SYNC {
      RunThree(s, lapse);
    } else {
      var t := Next(s, Crash(0));
      assert t.writers.Keys == {0} && t.writers[0].pc == Crashed;
      assert lapse[1..] == [RemoveStaleLock] && [RemoveStaleLock][1..] == [];
    }
  }

  lemma RetryAcknowledged(s: State, id: Bytes, secret: Bytes)
    requires ValidId(id) && ValidSecret(secret)
    requires s.published == Some(Document(map[id := NewDevice(secret)], 200)) && s.durable == None && !s.lock
    requires 1 !in s.writers
    ensures var t := Run(s, Retry(id, secret));
            1 in t.writers && t.writers[1].pc == Returned(Registered(map[id := NewDevice(secret)])) && t.durable == None
  {
    hide ValidId, ValidSecret, Lower;
    var e := Retry(id, secret);
    var w := Writer(id, secret, 1, 200, Called);
    var devices: Devices := map[id := NewDevice(secret)];
    LowerTwice(secret);
    RunSix(s, e);
    var s1 := Next(s, e[0]);
    assert s1 == s.(writers := s.writers[1 := w]);
    var s3 := Next(Next(s1, e[1]), e[2]);
    assert s3.writers[1].pc == Loaded(devices) && s3.published == s.published && s3.durable == None;
    var s4 := Next(s3, e[3]);
    assert s4.writers[1].pc == Cleaning(Registered(devices)) && s4.durable == None;
  }

  /**
   * With a failed directory sync, or a lock removed after a crash at that point, the promise breaks: the registration
   * is sent again, finds its entry and is acknowledged without a sync, and a power loss then takes the entry away.
   */
  lemma AcknowledgedThenLost(id: Bytes, secret: Bytes, lapse: seq<Event>)
    requires ValidId(id) && ValidSecret(secret) && (lapse == FAILED_SYNC || lapse == STALE_LOCK)
    ensures var t := Run(EMPTY, UpToRename(id, secret) + lapse + Retry(id, secret));
            && 1 in t.writers && t.writers[1].pc == Returned(Registered(map[id := NewDevice(secret)]))
            && In(Next(t, PowerLoss(0, false)).published) == map[]
    ensures Inv(EMPTY) && AllKept(EMPTY)
  {
    hide ValidId, ValidSecret, Lower, Run, Proceed, Throw, UpToRename, Retry, FAILED_SYNC, STALE_LOCK;
    var s := Run(EMPTY, UpToRename(id, secret));
    AfterRename(id, secret);
    AfterLapse(s, lapse, id, secret, map[id := NewDevice(secret)]);
    RunAppend(EMPTY, UpToRename(id, secret), lapse);
    RunAppend(EMPTY, UpToRename(id, secret) + lapse, Retry(id, secret));
    RetryAcknowledged(Run(s, lapse), id, secret);
  }
}
