/** `waitForInstallation` of src/provisioning/online.js in its own form: a record updated message by message. */
module Online {
  import opened Prelude
  import Credentials
  import opened Sessions
  import opened InstallationEvidence

  const CLOCK_TOLERANCE := 5000

  predicate FirmwareText(text: Bytes) {
    && 1 <= |text| <= 47
    && forall i :: 0 <= i < |text| ==> Credentials.Alphanumeric(text[i]) || text[i] in [0x2e, 0x2b, 0x5f, 0x2d]
  }

  /** The request is one that can be waited for. */
  predicate ValidRequest(w: Wait, timeout: int) {
    && Credentials.ValidId(w.id) && FirmwareText(w.firmware) && Credentials.LowerHex(w.digest)
    && 0 < w.notBefore <= MAX_SAFE_INTEGER && 1 <= timeout <= 120000
  }

  datatype Ending = Waiting | Failed | Resolved(current: Current)

  /** A message is looked at if it is about the awaited id, and a report of a configuration only while it is there. */
  predicate Concerns(current: Option<Current>, note: Note, id: Bytes) {
    || (note.Presence? && note.id == Str(id))
    || (note.ConfigurationState? && note.id == Str(id) && current.Some?)
  }

  class Waiter {
    const w: Wait
    var current: Option<Current>
    var ending: Ending
    ghost var heard: seq<Entry>

    /** The record is the fold of the messages heard, and a resolution was satisfied by one of its stages. */
    ghost predicate Valid()
      reads this
    {
      current == Fold(heard, w.id) && (ending.Resolved? ==> Resolves(w, heard, ending.current))
    }

    constructor (w: Wait, timeout: int)
      ensures this.w == w && Valid() && heard == [] && (ending.Waiting? <==> ValidRequest(w, timeout))
      ensures !ending.Resolved?
    {
      this.w := w;
      current, heard := None, [];
      ending := if ValidRequest(w, timeout) then Waiting else Failed;
    }

    method Finish(result: Ending)
      requires !result.Waiting?
      modifies this`ending
      ensures ending == if old(ending).Waiting? then result else old(ending)
    {
      if ending.Waiting? {
        ending := result;
      }
    }

    /** One message from the server; `clock` is the time it is handled. */
    method OnMessage(note: Note, clock: int)
      requires Valid()
      modifies this
      ensures Valid() && heard == old(heard) + [Told(note)]
      ensures current == Noticed(old(current), note, w.id)
      ensures ending ==
              if old(ending).Waiting? && Concerns(old(current), note, w.id)
                  && Satisfied(w, current, clock + 5000)
              then Resolved(current.value) else old(ending)
      ensures ending != old(ending) ==>
                && current.value.hardware == Some(Chars("mindflayer-keypad-v1"))
                && current.value.firmware == Some(w.firmware) && current.value.verified.value.digest == w.digest
                && w.notBefore <= current.value.verified.value.at <= clock + 5000
    {
      FoldWith(heard, Told(note), w.id);
      if ending.Resolved? {
        ResolvesLonger(w, heard, Told(note), ending.current);
      }
      heard := heard + [Told(note)];
      match note {
        case Presence(id, status, meta) =>
          if id != Str(w.id) { return; }
          current := if status.Connected? && meta.authenticated then
              Some(Current(meta.hardware, meta.firmware, meta.verified)) else None;
        case ConfigurationState(id, verified) =>
          if id != Str(w.id) || current.None? { return; }
          current := Some(current.value.(verified := Some(verified)));
        case _ => return;
      }
      if Satisfied(w, current, clock + CLOCK_TOLERANCE) {
        assert heard[..|heard|] == heard;
        Finish(Resolved(current.value));
      }
    }

    method OnTimeoutOrClose()
      requires Valid()
      modifies this`ending
      ensures Valid() && ending == if old(ending).Waiting? then Failed else old(ending)
    {
      Finish(Failed);
    }
  }

  lemma ResolvesLonger(w: Wait, trace: seq<Entry>, e: Entry, current: Current)
    requires Resolves(w, trace, current)
    ensures Resolves(w, trace + [e], current)
  {
    hide Fold, Satisfied;
    var n, limit :| 0 <= n <= |trace| && Satisfied(w, Fold(trace[..n], w.id), limit)
        && Fold(trace[..n], w.id) == Some(current);
    assert (trace + [e])[..n] == trace[..n];
  }
}
