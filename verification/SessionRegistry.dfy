/** What every handler keeps about the registry, and what registering and removing do to every connection. */
module SessionRegistry {
  import opened Sessions

  /** A keypad controller in the registry. */
  predicate Registered(s: State, k: ConnId) {
    k in s.live && k in s.conns && s.conns[k].keypad && s.conns[k].receiver.False?
  }

  /** Only authenticated keypads carry an id, and only their own. */
  predicate RolesOk(conn: Conn) {
    && (conn.authenticated ==> conn.keypad && conn.deviceId != [])
    && (conn.keypad ==>
          if conn.receiver.False? then conn.authenticated && conn.controllerId == Str(conn.deviceId)
          else conn.receiver.Unset? && conn.controllerId.Null?)
  }

  ghost predicate Base(s: State) {
    && (forall c :: c in s.live ==> c in s.conns && (s.conns[c].keypad ==> s.conns[c].authenticated))
    && (forall c :: c in s.conns ==> RolesOk(s.conns[c]))
    && (forall c :: c in s.conns && s.conns[c].open && (s.conns[c].keypad ==> s.conns[c].authenticated) ==> c in s.live)
  }

  /** At most one registered keypad has an id. */
  ghost predicate Unique(s: State) {
    forall j, k :: Registered(s, j) && Registered(s, k) && s.conns[j].deviceId == s.conns[k].deviceId ==> j == k
  }

  ghost predicate Ok(s: State) {
    Base(s) && Unique(s)
  }

  lemma OkBase(s: State)
    requires Ok(s)
    ensures Base(s) && Unique(s)
  {}

  // ---- Removing ----

  /** The last controller of its id leaves. */
  predicate Announces(s: State, c: ConnId) {
    && c in s.conns && s.conns[c].receiver.False? && s.conns[c].controllerId.Str?
    && !Held(s.(live := Without(s.live, c)), s.conns[c].controllerId)
  }

  /** A receiver that is told something; everyone else stays as it is. */
  function Hears(s: State, k: ConnId, note: Note): Conn
    requires k in s.conns
  {
    if k in s.live && s.conns[k].receiver.True? then With(s.conns[k], Told(note)) else s.conns[k]
  }

  lemma BroadcastEffect(s: State, note: Note)
    ensures var t := Broadcast(s, note);
            && t.live == s.live && t.store == s.store && t.conns.Keys == s.conns.Keys
            && forall k :: k in s.conns ==> t.conns[k] == Hears(s, k, note)
  {
    hide With;
  }

  /** Removing a connection tells each remaining receiver at most one thing: that an id it was the last to hold left. */
  lemma RemoveEffect(s: State, c: ConnId)
    requires Base(s) && c in s.live
    ensures var t, gone := Remove(s, c), s.(live := Without(s.live, c));
            && t.live == gone.live && t.store == s.store && t.conns.Keys == s.conns.Keys
            && forall k :: k in s.conns ==>
                 t.conns[k] == if Announces(s, c) then Hears(gone, k, PresenceOf(s.conns[c], Disconnected))
                     else s.conns[k]
  {
    hide Without, Held, PresenceOf, Broadcast, Hears;
    BroadcastEffect(s.(live := Without(s.live, c)), PresenceOf(s.conns[c], Disconnected));
  }

  // ---- Replacing a keypad ----

  /** A keypad that replaces others: it is in the registry under their id. */
  predicate Replaces(s: State, c: ConnId) {
    c in s.live && c in s.conns && s.conns[c].receiver.False? && s.conns[c].authenticated
        && s.conns[c].controllerId.Str?
  }

  /** Retiring replaced keypads tells nobody anything: it closes them and takes them out of the registry. */
  lemma {:induction false} RetireEffect(s: State, c: ConnId, ids: seq<ConnId>)
    requires Base(s) && Replaces(s, c) && forall k :: k in ids ==> k in s.live && Replaced(s, c, k)
    ensures var t := Retire(s, ids);
            && t.store == s.store && t.conns.Keys == s.conns.Keys
            && (forall k :: k in t.live <==> k in s.live && k !in ids)
            && (forall k :: k in s.conns ==> t.conns[k] == if k in ids then s.conns[k].(open := false) else s.conns[k])
  {
    hide RolesOk;
    if ids != [] {
      var front, k := ids[..|ids| - 1], ids[|ids| - 1];
      assert k in ids && forall j :: j in front ==> j in ids;
      RetireEffect(s, c, front);
      assert forall j :: j in ids <==> j in front || j == k;
      RetireOne(s, c, front, k);
    }
  }

  lemma RetireOne(s: State, c: ConnId, front: seq<ConnId>, k: ConnId)
    requires Base(s) && Replaces(s, c) && Replaced(s, c, k) && forall j :: j in front ==> Replaced(s, c, j)
    requires var t := Retire(s, front);
             && t.conns.Keys == s.conns.Keys
             && (forall j :: j in t.live <==> j in s.live && j !in front)
             && (forall j :: j in s.conns ==> t.conns[j] == if j in front then s.conns[j].(open := false)
                else s.conns[j])
    ensures var t, u := Retire(s, front), Remove(Retire(s, front), k);
            u.conns == t.conns && u.store == t.store && u.live == if k in t.live then Without(t.live, k) else t.live
  {
    hide RolesOk, Retire;
    var t := Retire(s, front);
    if k in t.live {
      var gone := t.(live := Without(t.live, k));
      assert c in gone.live && t.conns[c] == s.conns[c];
      assert HasFlag(gone, c, False) && gone.conns[c].controllerId == t.conns[k].controllerId;
      assert Held(gone, t.conns[k].controllerId);
    }
  }

  // ---- Registering ----

  predicate MayRegister(s: State, c: ConnId, r: Reg) {
    && c in s.live && c in s.conns
    && (s.conns[c].authenticated ==> r.id == Str(s.conns[c].deviceId) && r.receiver.False?)
  }

  /** A connection that registers as a receiver is told of every controller; nobody else learns of it. */
  lemma RegisterReceiverEffect(s: State, c: ConnId, r: Reg)
    requires MayRegister(s, c, r) && IsTruthy(r.receiver)
    ensures var t := Register(s, c, r);
            && t.live == s.live && t.store == s.store && t.conns.Keys == s.conns.Keys
            && (forall k :: k in s.conns && k != c ==> t.conns[k] == s.conns[k])
            && var put := Put(s, c, Registering(s.conns[c], r));
               t.conns[c] == put.conns[c].(trace := s.conns[c].trace + [Joined] + Snapshot(put, Controllers(put)))
  {
    hide Snapshot, Controllers;
  }

  /** The keypads a registration replaces. */
  predicate Evicted(s: State, c: ConnId, r: Reg, k: ConnId)
    requires c in s.conns
  {
    && r.status.Connected? && s.conns[c].authenticated
    && k != c && k in s.live && k in s.conns && s.conns[k].receiver.False? && s.conns[k].authenticated
       && s.conns[k].controllerId == r.id
  }

  /**
   * A controller's registration tells each receiver one thing, its own presence: replacing a keypad that is still
   * connected is not seen as a disconnect.
   */
  lemma RegisterControllerEffect(s: State, c: ConnId, r: Reg)
    requires Base(s) && MayRegister(s, c, r) && !IsTruthy(r.receiver)
    ensures var t, conn := Register(s, c, r), Registering(s.conns[c], r);
            && t.store == s.store && t.conns.Keys == s.conns.Keys
            && (forall k :: k in t.live <==> k in s.live && !Evicted(s, c, r, k))
            && t.conns[c] == conn
            && forall k :: k in s.conns && k != c ==>
                 t.conns[k] == if Evicted(s, c, r, k) then s.conns[k].(open := false)
                     else Hears(s, k, PresenceOf(conn, r.status))
  {
    hide Broadcast, Controllers, Candidates, Retire, Snapshot, PresenceOf, Hears;
    var conn := Registering(s.conns[c], r);
    var t := Put(s, c, conn);
    var ids := Candidates(t, c, Controllers(t));
    ControllersOf(t);
    var u := t;
    if r.status.Connected? && conn.authenticated {
      u := Retire(t, ids);
      RetireEffect(t, c, ids);
      assert forall k :: k in s.conns ==> (k in ids <==> Evicted(s, c, r, k));
    }
    BroadcastEffect(u, PresenceOf(conn, r.status));
    assert Register(s, c, r) == Broadcast(u, PresenceOf(conn, r.status));
    forall k | k in s.conns && k != c
      ensures Hears(u, k, PresenceOf(conn, r.status)) ==
              if Evicted(s, c, r, k) then s.conns[k].(open := false) else Hears(s, k, PresenceOf(conn, r.status))
    {
      HearsFrame(s, u, k, PresenceOf(conn, r.status));
    }
    assert Hears(u, c, PresenceOf(conn, r.status)) == conn by {
      KeypadDeaf(u, c, PresenceOf(conn, r.status));
    }
  }

  lemma ControllersOf(s: State)
    ensures forall k :: k in Controllers(s) <==> k in s.live && HasFlag(s, k, False)
  {}

  lemma HearsFrame(s: State, u: State, k: ConnId, note: Note)
    requires k in s.conns && k in u.conns && (k in s.live && s.conns[k].receiver.True? ==> k in u.live)
    requires k in u.live ==> k in s.live
    requires u.conns[k] == s.conns[k] || (!s.conns[k].receiver.True? && u.conns[k] == s.conns[k].(open := false))
    ensures u.conns[k] == s.conns[k] ==> Hears(u, k, note) == Hears(s, k, note)
    ensures !u.conns[k].receiver.True? ==> Hears(u, k, note) == u.conns[k]
  {}

  lemma HearsTraces(s: State, k: ConnId, note: Note)
    requires k in s.conns
    ensures k in s.live && s.conns[k].receiver.True? ==> Hears(s, k, note).trace == s.conns[k].trace + [Told(note)]
    ensures Hears(s, k, note).trace == s.conns[k].trace || Hears(s, k, note).trace == s.conns[k].trace + [Told(note)]
  {}

  lemma KeypadDeaf(s: State, k: ConnId, note: Note)
    requires k in s.conns && !s.conns[k].receiver.True?
    ensures Hears(s, k, note) == s.conns[k]
  {}
}
