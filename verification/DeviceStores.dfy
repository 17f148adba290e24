/**
 * src/security/device-store.js in its own form: a store object over shared files. Each call of `Register` is one
 * call of the protocol in StoreProtocol, operation for operation, whichever of its operations throw.
 */
module DeviceStores {
  import opened Prelude
  import opened Credentials
  import opened StoreProtocol

  /** Which operations of one call of `Register` throw, if it comes to them. */
  datatype Faults = Faults(openLock: bool, read: bool, create: bool, write: bool, rename: bool, sync: bool,
                           unlinkTemporary: bool, unlinkLock: bool)

  /** The credentials file, its lock file and the temporary files beside it. */
  class Disk {
    var published: Option<Content>
    var durable: Option<Content>
    var unsynced: seq<Content>
    var lock: bool
    var temporaries: map<Name, Content>

    constructor (file: Option<Content>)
      ensures published == file && durable == file && unsynced == [] && !lock && temporaries == map[]
    {
      published, durable, unsynced, lock, temporaries := file, file, [], false, map[];
    }
  }

  class DeviceStore {
    const disk: Disk
    var devices: Devices

    /** The protocol state in which `w` is the only call, made by process 0. */
    ghost function View(w: Writer): (s: State)
      reads this, disk
      ensures Alone(s) && s.writers[0] == w
    {
      State(disk.published, disk.durable, disk.unsynced, disk.lock, disk.temporaries, map[0 := w], map[0 := devices])
    }

    constructor (disk: Disk)
      ensures this.disk == disk && devices == map[]
    {
      this.disk := disk;
      devices := map[];
    }

    /** Reads the published entries; throws, keeping the old ones, if the file is unreadable. */
    method Reload() returns (ok: bool)
      modifies this`devices
      ensures ok <==> Entries(disk.published).Some?
      ensures devices == if ok then Entries(disk.published).value else old(devices)
    {
      var entries := Entries(disk.published);
      ok := entries.Some?;
      if ok {
        devices := entries.value;
      }
    }

    method Get(id: Bytes) returns (device: Option<Device>)
      ensures device.Some? <==> id in devices
      ensures device.Some? ==> device.value == devices[id]
    {
      device := if id in devices then Some(devices[id]) else None;
    }

    /**
     * One call of `register`: its effect is that of the protocol's run in which only this call moves and exactly the
     * operations in `faults` throw, so every property of all interleavings holds of it.
     */
    method Register(
        id: Bytes, secret: Bytes, temporary: Name, size: nat, faults: Faults)
      returns (outcome: Outcome, ghost events: seq<Event>)
      modifies this`devices, disk
      ensures var w := Writer(id, secret, temporary, size, Called);
              && events == Performed(old(View(w)), faults)
              && Run(old(View(w)), events) == View(w.(pc := Returned(outcome)))
    {
      hide ValidId, ValidSecret, Lower, NewDevice, Run, Performed, Do, Doing, Operation, Throws, Nearer;
      ghost var w := Writer(id, secret, temporary, size, Called);
      ghost var s := View(w);
      events := [];
      Starts(s, faults);

      DoCalled(View(w), faults);
      events := Extend(s, events, View(w), faults);
      if !ValidId(id) || !ValidSecret(secret) {
        Ends(s, events, View(w.(pc := Returned(Invalid))), faults);
        return Invalid, events;
      }
      if disk.lock || faults.openLock {
        outcome := if faults.openLock then Failed else LockHeld;
        Ends(s, events, View(w.(pc := Returned(outcome))), faults);
        return;
      }
      disk.lock := true;
      w := w.(pc := Locked);
      assert Doing(s, events, View(w), faults);

      outcome, w, events := Replace(id, secret, temporary, size, faults, s, w, events);

      DoCleaning(View(w), faults);
      events := Extend(s, events, View(w), faults);
      if faults.unlinkTemporary {
        outcome := Failed;
        Ends(s, events, View(w.(pc := Returned(outcome))), faults);
        return;
      }
      disk.temporaries := disk.temporaries - {temporary};
      w := w.(pc := Unlocking(outcome));
      assert Doing(s, events, View(w), faults);
      DoUnlocking(View(w), faults);
      events := Extend(s, events, View(w), faults);
      if faults.unlinkLock {
        outcome := Failed;
      } else {
        disk.lock := false;
      }
      Ends(s, events, View(w.(pc := Returned(outcome))), faults);
    }

    /** What `register` does between taking the lock and its clean-up. */
    method Replace(id: Bytes, secret: Bytes, temporary: Name, size: nat, faults: Faults,
                   ghost s: State, ghost was: Writer, ghost done: seq<Event>)
      returns (outcome: Outcome, ghost w: Writer, ghost events: seq<Event>)
      requires was == Writer(id, secret, temporary, size, Locked) && Alone(s) && Doing(s, done, View(was), faults)
      modifies this`devices, disk
      ensures w == was.(pc := Cleaning(outcome)) && Doing(s, events, View(w), faults)
    {
      hide ValidId, ValidSecret, Lower, NewDevice, Run, Performed, Do, Doing, Operation, Throws, Nearer;
      w, events := was, done;

      DoLocked(View(w), faults);
      events := Extend(s, events, View(w), faults);
      if faults.read {
        return Failed, w.(pc := Cleaning(Failed)), events;
      }
      var ok := Reload();
      if !ok {
        return Failed, w.(pc := Cleaning(Failed)), events;
      }
      w := w.(pc := Loaded(devices));
      assert Doing(s, events, View(w), faults);

      var existing := Get(id);
      DoLoaded(View(w), faults);
      events := Extend(s, events, View(w), faults);
      if existing.Some? {
        outcome := if Lower(existing.value.secret) != Lower(secret) then Different else Registered(devices);
        w := w.(pc := Cleaning(outcome));
        return;
      }
      var next := devices[id := NewDevice(secret)];
      if faults.create || temporary in disk.temporaries {
        return Failed, w.(pc := Cleaning(Failed)), events;
      }
      disk.temporaries := disk.temporaries[temporary := Empty];
      w := w.(pc := Created(next));
      assert Doing(s, events, View(w), faults);

      outcome, w, events := Publish(next, temporary, size, faults, s, w, events);
    }

    /** Writes the replacement, renames it over the published file and syncs the directory. */
    method Publish(
        next: Devices, temporary: Name, size: nat, faults: Faults, ghost s: State, ghost was: Writer,
        ghost done: seq<Event>)
      returns (outcome: Outcome, ghost w: Writer, ghost events: seq<Event>)
      requires was.pc == Created(next) && was.temporary == temporary && was.size == size
      requires Alone(s) && Doing(s, done, View(was), faults)
      modifies this`devices, disk
      ensures w == was.(pc := Cleaning(outcome)) && Doing(s, events, View(w), faults)
    {
      hide ValidId, ValidSecret, Lower, NewDevice, Run, Performed, Do, Doing, Operation, Throws, Nearer;
      w, events := was, done;
      DoCreated(View(w), faults);
      events := Extend(s, events, View(w), faults);
      if faults.write {
        disk.temporaries := disk.temporaries[temporary := Partial];
        return Failed, w.(pc := Cleaning(Failed)), events;
      }
      disk.temporaries := disk.temporaries[temporary := Document(next, size)];
      w := w.(pc := Written(next));
      assert Doing(s, events, View(w), faults);
      outcome, w, events := Swap(next, temporary, faults, s, w, events);
    }

    /** The rename and the sync. */
    method Swap(next: Devices, temporary: Name, faults: Faults, ghost s: State, ghost was: Writer,
                ghost done: seq<Event>)
      returns (outcome: Outcome, ghost w: Writer, ghost events: seq<Event>)
      requires was.pc == Written(next) && was.temporary == temporary && temporary in disk.temporaries
      requires Alone(s) && Doing(s, done, View(was), faults)
      modifies this`devices, disk
      ensures w == was.(pc := Cleaning(outcome)) && Doing(s, events, View(w), faults)
    {
      hide ValidId, ValidSecret, Lower, NewDevice, Run, Performed, Do, Doing, Operation, Throws, Nearer;
      w, events := was, done;
      DoWritten(View(w), faults);
      events := Extend(s, events, View(w), faults);
      if faults.rename {
        return Failed, w.(pc := Cleaning(Failed)), events;
      }
      disk.published := Some(disk.temporaries[temporary]);
      disk.unsynced := disk.unsynced + [disk.temporaries[temporary]];
      disk.temporaries := disk.temporaries - {temporary};
      w := w.(pc := Renamed(next));
      assert Doing(s, events, View(w), faults);

      DoRenamed(View(w), faults);
      events := Extend(s, events, View(w), faults);
      if faults.sync {
        return Failed, w.(pc := Cleaning(Failed)), events;
      }
      disk.durable := disk.published;
      disk.unsynced := [];
      devices := next;
      return Registered(next), w.(pc := Cleaning(Registered(next))), events;
    }
  }

  // ---- The run of one call ----

  /** Process 0 is the only one, and has a call. */
  predicate Alone(s: State) {
    0 in s.writers && 0 in s.views && s == s.(writers := map[0 := s.writers[0]], views := map[0 := s.views[0]])
  }

  /** The same files, with the call at another point. */
  function At(s: State, pc: Pc): (t: State)
    requires Alone(s)
    ensures Alone(t) && t.writers[0] == s.writers[0].(pc := pc)
  {
    s.(writers := map[0 := s.writers[0].(pc := pc)])
  }

  /** The next operation of the call throws. */
  predicate Throws(w: Writer, faults: Faults) {
    match w.pc
    case Called => ValidId(w.id) && ValidSecret(w.secret) && faults.openLock
    case Locked => faults.read
    case Loaded(devices) => w.id !in devices && faults.create
    case Created(_) => faults.write
    case Written(_) => faults.rename
    case Renamed(_) => faults.sync
    case Cleaning(_) => faults.unlinkTemporary
    case Unlocking(_) => faults.unlinkLock
    case _ => false
  }

  /** The steps of that operation: a write that throws may have written something. */
  function Operation(w: Writer, faults: Faults): seq<Event> {
    if !Throws(w, faults) then [Advance(0)] else if w.pc.Created? then [WriteSome(0), Fault(0)] else [Fault(0)]
  }

  function Do(s: State, faults: Faults): State
    requires Alone(s)
  {
    Run(s, Operation(s.writers[0], faults))
  }

  /** How many operations the call still has before it. */
  function Ahead(s: State): nat
    requires Alone(s)
  {
    match s.writers[0].pc
    case Called => 8
    case Locked => 7
    case Loaded(_) => 6
    case Created(_) => 5
    case Written(_) => 4
    case Renamed(_) => 3
    case Cleaning(_) => 2
    case Unlocking(_) => 1
    case _ => 0
  }

  /** All steps of the call from here. */
  function Performed(s: State, faults: Faults): seq<Event>
    requires Alone(s)
    decreases Ahead(s)
  {
    if Ahead(s) == 0 then []
    else
      DoAhead(s, faults);
      Operation(s.writers[0], faults) + Performed(Do(s, faults), faults)
  }

  /** The call has come to `t`, and goes on from there as from `s`. */
  ghost predicate Doing(s: State, events: seq<Event>, t: State, faults: Faults)
    requires Alone(s)
  {
    Run(s, events) == t && Alone(t) && events + Performed(t, faults) == Performed(s, faults)
  }

  lemma Starts(s: State, faults: Faults)
    requires Alone(s)
    ensures Doing(s, [], s, faults)
  {
    hide Performed;
    assert [] + Performed(s, faults) == Performed(s, faults);
  }

  lemma Ends(s: State, events: seq<Event>, t: State, faults: Faults)
    requires Alone(s) && Doing(s, events, t, faults) && Ahead(t) == 0
    ensures events == Performed(s, faults) && Run(s, events) == t
  {
    hide Run;
    assert events + [] == events;
  }

  ghost method Extend(s: State, events: seq<Event>, t: State, faults: Faults) returns (more: seq<Event>)
    requires Alone(s) && Doing(s, events, t, faults) && Ahead(t) > 0
    ensures Doing(s, more, Do(t, faults), faults)
  {
    var es := Operation(t.writers[0], faults);
    more := events + es;
    DoAhead(t, faults);
    PerformedNext(t, faults);
    RunAppend(s, events, es);
    Regroup(events, es, Performed(Do(t, faults), faults));
    hide Run, Operation, Performed;
  }

  lemma PerformedNext(s: State, faults: Faults)
    requires Alone(s) && Ahead(s) > 0 && Alone(Do(s, faults))
    ensures Performed(s, faults) == Operation(s.writers[0], faults) + Performed(Do(s, faults), faults)
  {
    hide Do, Operation;
  }

  lemma Regroup(a: seq<Event>, b: seq<Event>, c: seq<Event>)
    ensures a + (b + c) == (a + b) + c
  {}

  /** What one event makes of a call that moves alone. */
  lemma OneEvent(s: State, e: Event)
    ensures Run(s, [e]) == Next(s, e)
  {
    hide Next;
    assert [e][1..] == [];
  }

  /** The call has less before it. */
  predicate Nearer(s: State, t: State)
    requires Alone(s)
  {
    Alone(t) && Ahead(t) < Ahead(s)
  }

  lemma DoCalled(s: State, faults: Faults)
    requires Alone(s) && s.writers[0].pc.Called?
    ensures Nearer(s, Do(s, faults))
    ensures Do(s, faults) ==
            var w := s.writers[0];
            if !ValidId(w.id) || !ValidSecret(w.secret) then At(s, Returned(Invalid))
            else if faults.openLock then At(s, Returned(Failed))
            else if s.lock then At(s, Returned(LockHeld))
            else At(s, Locked).(lock := true)
  {
    hide ValidId, ValidSecret, Lower, Run;
    OneEvent(s, Advance(0));
    OneEvent(s, Fault(0));
  }

  lemma DoLocked(s: State, faults: Faults)
    requires Alone(s) && s.writers[0].pc.Locked?
    ensures Nearer(s, Do(s, faults))
    ensures Do(s, faults) ==
            if faults.read || Entries(s.published).None? then At(s, Cleaning(Failed))
            else At(s, Loaded(Entries(s.published).value)).(views := map[0 := Entries(s.published).value])
  {
    hide ValidId, ValidSecret, Lower, Run;
    OneEvent(s, Advance(0));
    OneEvent(s, Fault(0));
  }

  lemma DoLoaded(s: State, faults: Faults)
    requires Alone(s) && s.writers[0].pc.Loaded?
    ensures Nearer(s, Do(s, faults))
    ensures Do(s, faults) ==
            var w, v := s.writers[0], s.writers[0].pc.devices;
            if w.id in v then
              At(s, Cleaning(if Lower(v[w.id].secret) == Lower(w.secret) then Registered(v) else Different))
            else if faults.create || w.temporary in s.temporaries then At(s, Cleaning(Failed))
            else At(s, Created(v[w.id := NewDevice(w.secret)])).(temporaries := s.temporaries[w.temporary := Empty])
  {
    hide ValidId, ValidSecret, Lower, Run;
    OneEvent(s, Advance(0));
    OneEvent(s, Fault(0));
  }

  lemma DoCreated(s: State, faults: Faults)
    requires Alone(s) && s.writers[0].pc.Created?
    ensures Nearer(s, Do(s, faults))
    ensures Do(s, faults) ==
            var w, next := s.writers[0], s.writers[0].pc.next;
            if faults.write then At(s, Cleaning(Failed)).(temporaries := s.temporaries[w.temporary := Partial])
            else At(s, Written(next)).(temporaries := s.temporaries[w.temporary := Document(next, w.size)])
  {
    hide ValidId, ValidSecret, Lower, Run;
    OneEvent(s, Advance(0));
    var some := Next(s, WriteSome(0));
    RunAppend(s, [WriteSome(0)], [Fault(0)]);
    OneEvent(s, WriteSome(0));
    OneEvent(some, Fault(0));
    assert [WriteSome(0)] + [Fault(0)] == [WriteSome(0), Fault(0)];
  }

  lemma DoWritten(s: State, faults: Faults)
    requires Alone(s) && s.writers[0].pc.Written?
    ensures Nearer(s, Do(s, faults))
    ensures Do(s, faults) ==
            var w, next := s.writers[0], s.writers[0].pc.next;
            if faults.rename || w.temporary !in s.temporaries then At(s, Cleaning(Failed))
            else At(s, Renamed(next)).(published := Some(s.temporaries[w.temporary]),
                                       unsynced := s.unsynced + [s.temporaries[w.temporary]],
                                       temporaries := s.temporaries - {w.temporary})
  {
    hide ValidId, ValidSecret, Lower, Run;
    OneEvent(s, Advance(0));
    OneEvent(s, Fault(0));
  }

  lemma DoRenamed(s: State, faults: Faults)
    requires Alone(s) && s.writers[0].pc.Renamed?
    ensures Nearer(s, Do(s, faults))
    ensures Do(s, faults) ==
            var next := s.writers[0].pc.next;
            if faults.sync then At(s, Cleaning(Failed))
            else At(s, Cleaning(Registered(next))).(durable := s.published, unsynced := [], views := map[0 := next])
  {
    hide ValidId, ValidSecret, Lower, Run;
    OneEvent(s, Advance(0));
    OneEvent(s, Fault(0));
  }

  lemma DoCleaning(s: State, faults: Faults)
    requires Alone(s) && s.writers[0].pc.Cleaning?
    ensures Nearer(s, Do(s, faults))
    ensures Do(s, faults) ==
            if faults.unlinkTemporary then At(s, Returned(Failed))
            else At(s, Unlocking(s.writers[0].pc.outcome)).(temporaries := s.temporaries - {s.writers[0].temporary})
  {
    hide ValidId, ValidSecret, Lower, Run;
    OneEvent(s, Advance(0));
    OneEvent(s, Fault(0));
  }

  lemma DoUnlocking(s: State, faults: Faults)
    requires Alone(s) && s.writers[0].pc.Unlocking?
    ensures Nearer(s, Do(s, faults))
    ensures Do(s, faults) ==
            if faults.unlinkLock then At(s, Returned(Failed))
            else At(s, Returned(s.writers[0].pc.outcome)).(lock := false)
  {
    hide ValidId, ValidSecret, Lower, Run;
    OneEvent(s, Advance(0));
    OneEvent(s, Fault(0));
  }

  /** Every operation brings the call nearer to its end. */
  lemma DoAhead(s: State, faults: Faults)
    requires Alone(s) && Ahead(s) > 0
    ensures Nearer(s, Do(s, faults))
  {
    hide ValidId, ValidSecret, Lower, Run, Do, Operation, Throws, Entries, NewDevice, At, Nearer;
    match s.writers[0].pc {
      case Called => DoCalled(s, faults);
      case Locked => DoLocked(s, faults);
      case Loaded(_) => DoLoaded(s, faults);
      case Created(_) => DoCreated(s, faults);
      case Written(_) => DoWritten(s, faults);
      case Renamed(_) => DoRenamed(s, faults);
      case Cleaning(_) => DoCleaning(s, faults);
      case Unlocking(_) => DoUnlocking(s, faults);
    }
  }

  // ---- What one call achieves ----

  /** The state in which the call returns. */
  function Result(s: State, faults: Faults): State
    requires Alone(s)
  {
    Run(s, Performed(s, faults))
  }

  lemma ResultNext(s: State, faults: Faults)
    requires Alone(s)
    ensures Ahead(s) == 0 ==> Result(s, faults) == s
    ensures Ahead(s) > 0 ==> Alone(Do(s, faults)) && Result(s, faults) == Result(Do(s, faults), faults)
  {
    if Ahead(s) > 0 {
      var es := Operation(s.writers[0], faults);
      hide Run, Operation;
      DoAhead(s, faults);
      RunAppend(s, es, Performed(Do(s, faults), faults));
    }
  }

  /** The call takes the lock. */
  predicate Enters(s: State, faults: Faults)
    requires Alone(s)
  {
    ValidId(s.writers[0].id) && ValidSecret(s.writers[0].secret) && !faults.openLock && !s.lock
  }

  /** The replacement is written, renamed and synced. */
  predicate Replaces(s: State, faults: Faults)
    requires Alone(s)
  {
    s.writers[0].temporary !in s.temporaries && !faults.create && !faults.write && !faults.rename && !faults.sync
  }

  /** The entry is there already, or can be added. */
  predicate Grants(s: State, faults: Faults)
    requires Alone(s)
  {
    && !faults.read && Entries(s.published).Some?
    && var w, devices := s.writers[0], Entries(s.published).value;
       if w.id in devices then Lower(devices[w.id].secret) == Lower(w.secret) else Replaces(s, faults)
  }

  predicate Acknowledges(s: State) {
    Alone(s) && s.writers[0].pc.Returned? && s.writers[0].pc.outcome.Registered?
  }

  /** The file with the new entry. */
  function Enlarged(s: State): Content
    requires Alone(s) && Entries(s.published).Some?
  {
    Document(Entries(s.published).value[s.writers[0].id := NewDevice(s.writers[0].secret)], s.writers[0].size)
  }

  lemma EndResult(s: State, faults: Faults)
    requires Alone(s) && s.writers[0].pc.Cleaning? && s.lock
    ensures var r := Result(s, faults);
            && Acknowledges(r) ==
               (s.writers[0].pc.outcome.Registered? && !faults.unlinkTemporary && !faults.unlinkLock)
            && r.lock == (faults.unlinkTemporary || faults.unlinkLock)
            && (r.published, r.durable, r.unsynced) == (s.published, s.durable, s.unsynced)
            && (!faults.unlinkTemporary ==> r.temporaries == s.temporaries - {s.writers[0].temporary})
            && Alone(r) && r.views == s.views
  {
    hide ValidId, ValidSecret, Lower, Run, Do, Performed, Result;
    ResultNext(s, faults);
    DoCleaning(s, faults);
    var t := Do(s, faults);
    ResultNext(t, faults);
    if !faults.unlinkTemporary {
      DoUnlocking(t, faults);
      ResultNext(Do(t, faults), faults);
    }
  }

  lemma ReplacementResult(s: State, faults: Faults)
    requires Alone(s) && s.writers[0].pc.Created? && s.lock && s.writers[0].temporary in s.temporaries
    ensures var r, done := Result(s, faults), !faults.write && !faults.rename && !faults.sync;
            var file := Document(s.writers[0].pc.next, s.writers[0].size);
            && Acknowledges(r) == (done && !faults.unlinkTemporary && !faults.unlinkLock)
            && r.lock == (faults.unlinkTemporary || faults.unlinkLock)
            && r.published == (if !faults.write && !faults.rename then Some(file) else s.published)
            && r.durable == (if done then Some(file) else s.durable)
            && (done ==> r.unsynced == [])
            && (!faults.unlinkTemporary ==> r.temporaries == s.temporaries - {s.writers[0].temporary})
            && Alone(r) && r.views == (if done then map[0 := s.writers[0].pc.next] else s.views)
  {
    hide ValidId, ValidSecret, Lower, Run, Do, Performed, Result;
    ResultNext(s, faults);
    DoCreated(s, faults);
    var t := Do(s, faults);
    if !faults.write {
      ResultNext(t, faults);
      DoWritten(t, faults);
      t := Do(t, faults);
      if !faults.rename {
        ResultNext(t, faults);
        DoRenamed(t, faults);
        t := Do(t, faults);
      }
    }
    EndResult(t, faults);
  }

  /**
   * One call, exactly: it is acknowledged if and only if it takes the lock, finds its entry or adds and syncs it, and
   * cleans up; an added entry is then published and durable, and the file is otherwise as it was. The lock is left
   * behind exactly by a call that took it and could not clean up; no temporary file is, unless its removal fails.
   */
  lemma RegistersExactly(s: State, faults: Faults)
    requires Alone(s) && s.writers[0].pc.Called?
    ensures var r := Result(s, faults);
            && (Acknowledges(r) <==>
                 Enters(s, faults) && Grants(s, faults) && !faults.unlinkTemporary && !faults.unlinkLock)
            && (r.lock <==> s.lock || (Enters(s, faults) && (faults.unlinkTemporary || faults.unlinkLock)))
            && (Enters(s, faults) && !faults.unlinkTemporary ==>
                 r.temporaries == s.temporaries - {s.writers[0].temporary})
            && (Acknowledges(r) ==> r.views[0] == In(r.published))
            && (Acknowledges(r) ==>
                 if s.writers[0].id in Entries(s.published).value then
                   (r.published, r.durable, r.unsynced) == (s.published, s.durable, s.unsynced)
                 else
                   r.published == r.durable == Some(Enlarged(s)) && r.unsynced == [])
            && (r.published != s.published ==>
                  Enters(s, faults) && Entries(s.published).Some? && r.published == Some(Enlarged(s)))
  {
    hide ValidId, ValidSecret, Lower, Run, Do, Performed, Result;
    ResultNext(s, faults);
    DoCalled(s, faults);
    var t := Do(s, faults);
    ResultNext(t, faults);
    if Enters(s, faults) {
      DoLocked(t, faults);
      t := Do(t, faults);
      if t.writers[0].pc.Loaded? {
        ResultNext(t, faults);
        DoLoaded(t, faults);
        t := Do(t, faults);
      }
      if t.writers[0].pc.Created? {
        ReplacementResult(t, faults);
      } else {
        EndResult(t, faults);
      }
    }
  }
}
