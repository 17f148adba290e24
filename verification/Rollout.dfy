/** The update offers of src/firmware/rollout.js: which release is offered, and how often. */
module Rollout {
  import opened Prelude
  import opened Semver

  const RETRY_INTERVAL_MS: int := 10 * 60 * 1000

  /** A release, with the text of its version and what that text means. */
  datatype Release = Release(text: Bytes, version: SemVer)

  /** What the credentials say of a device: its pin, if any, and its switches. */
  datatype Settings = Settings(pinned: bool, allowDowngrade: bool, autoUpdate: Option<bool>)

  /**
   * One call of `offer`: the connection, what the device reported, and what the catalogues hold. `checked` and `at`
   * are the two readings of the clock; `fails` says that the image, the token or the frame throws.
   */
  datatype Request = Request(
    id: Bytes,
    open: bool,
    settings: Settings,
    hardware: Bytes,
    current: Option<SemVer>,
    pin: Option<Release>,
    latest: Option<Release>,
    checked: int,
    at: int,
    fails: bool)

  // ---- Which release ----

  /** The checks before the retry limit, in their order. */
  function Chosen(r: Request): Option<Release> {
    if !r.open || r.hardware == [] || r.current.None? then None
    else if !r.settings.pinned && r.settings.autoUpdate == Some(false) then None
    else
      var release :- if r.settings.pinned then r.pin else r.latest;
      var current := r.current.value;
      if release.version == current then None
      else if (!r.settings.pinned || !r.settings.allowDowngrade)
          && (Less(release.version, current) || release.version == current) then None
      else Some(release)
  }

  /** An unpinned device is offered the latest release exactly if updates are not switched off and it is newer. */
  lemma UnpinnedChoice(r: Request)
    requires r.open && r.hardware != [] && r.current.Some? && !r.settings.pinned
    ensures Chosen(r).Some? <==>
            r.settings.autoUpdate != Some(false) && r.latest.Some? && Less(r.current.value, r.latest.value.version)
    ensures Chosen(r).Some? ==> Chosen(r) == r.latest
  {
    hide Less;
    if r.latest.Some? {
      PrecedenceOrder(r.latest.value.version, r.current.value, r.current.value);
    }
  }

  /** A pinned device is offered its pin exactly if that is newer, or merely different where downgrades are allowed. */
  lemma PinnedChoice(r: Request)
    requires r.open && r.hardware != [] && r.current.Some? && r.settings.pinned
    ensures Chosen(r).Some? <==>
            r.pin.Some? && r.pin.value.version != r.current.value
            && (r.settings.allowDowngrade || Less(r.current.value, r.pin.value.version))
    ensures Chosen(r).Some? ==> Chosen(r) == r.pin
  {
    hide Less;
    if r.pin.Some? {
      PrecedenceOrder(r.pin.value.version, r.current.value, r.current.value);
    }
  }

  /** A device that took every offer it got: it runs each offered version when the next offer is made. */
  ghost predicate Adopts(requests: seq<Request>) {
    && (forall i :: 0 <= i < |requests| ==> Chosen(requests[i]).Some? && !requests[i].settings.pinned)
    && forall i :: 0 < i < |requests| ==> requests[i].current == Some(Chosen(requests[i - 1]).value.version)
  }

  /** An unpinned device that adopts each offer only ever moves up. */
  lemma {:induction false} AdoptionsRise(requests: seq<Request>, i: nat, j: nat)
    requires Adopts(requests) && i < j < |requests|
    ensures Less(requests[i].current.value, requests[j].current.value)
    ensures Less(Chosen(requests[i]).value.version, Chosen(requests[j]).value.version)
    decreases j - i
  {
    hide Less, Chosen;
    var last := requests[j - 1];
    ChosenNeeds(requests[i]);
    ChosenNeeds(last);
    ChosenNeeds(requests[j]);
    UnpinnedChoice(last);
    UnpinnedChoice(requests[j]);
    assert requests[j].current == Some(Chosen(last).value.version);
    if i + 1 < j {
      AdoptionsRise(requests, i, j - 1);
      PrecedenceOrder(requests[i].current.value, last.current.value, requests[j].current.value);
      PrecedenceOrder(Chosen(requests[i]).value.version, Chosen(last).value.version, Chosen(requests[j]).value.version);
    }
  }

  lemma ChosenNeeds(r: Request)
    requires Chosen(r).Some?
    ensures r.open && r.hardware != [] && r.current.Some?
  {}

  /** Once it runs the latest release it is offered nothing more. */
  lemma StopsAtLatest(r: Request)
    requires !r.settings.pinned && r.current.Some? && r.latest.Some? && r.current.value == r.latest.value.version
    ensures Chosen(r).None?
  {}

  // ---- How often ----

  datatype Attempt = Attempt(text: Bytes, at: int)

  type Attempts = map<Bytes, Attempt>

  /** The last offer was of this version, and too recent. */
  predicate TooSoon(attempts: Attempts, r: Request, release: Release) {
    r.id in attempts && attempts[r.id].text == release.text && r.checked - attempts[r.id].at < RETRY_INTERVAL_MS
  }

  /** The release that is sent, if any. */
  function Sent(attempts: Attempts, r: Request): Option<Release> {
    var release :- Chosen(r);
    if TooSoon(attempts, r, release) || r.fails then None else Some(release)
  }

  function After(attempts: Attempts, r: Request): Attempts {
    match Sent(attempts, r)
    case None => attempts
    case Some(release) => attempts[r.id := Attempt(release.text, r.at)]
  }

  /** An offer that was sent. */
  datatype Offer = Offer(id: Bytes, release: Release, checked: int, at: int)

  datatype State = State(attempts: Attempts, history: seq<Offer>)

  function Next(s: State, r: Request): State {
    State(After(s.attempts, r),
          match Sent(s.attempts, r)
          case None => s.history
          case Some(release) => s.history + [Offer(r.id, release, r.checked, r.at)])
  }

  function Run(s: State, requests: seq<Request>): State
    decreases |requests|
  {
    if requests == [] then s else Run(Next(s, requests[0]), requests[1..])
  }

  /** The clock never goes back, within a call or between calls. */
  predicate Monotone(requests: seq<Request>) {
    && (forall i :: 0 <= i < |requests| ==> requests[i].checked <= requests[i].at)
    && forall i, j :: 0 <= i < j < |requests| ==> requests[i].at <= requests[j].checked
  }

  /** The last offer to each device is what the attempts remember. */
  ghost predicate Remembered(s: State) {
    && (forall id :: id in s.attempts ==>
         exists i :: LastTo(s.history, id, i) && s.attempts[id] == Attempt(s.history[i].release.text, s.history[i].at))
    && (forall i :: 0 <= i < |s.history| ==> s.history[i].id in s.attempts && s.history[i].checked <= s.history[i].at)
    && (forall i, j :: 0 <= i < j < |s.history| ==> s.history[i].at <= s.history[j].checked)
  }

  predicate LastTo(history: seq<Offer>, id: Bytes, i: int) {
    0 <= i < |history| && history[i].id == id && forall j :: i < j < |history| ==> history[j].id != id
  }

  /**
   * Between two offers of one version to one device, with no other version offered to it between, the interval passes.
   */
  predicate SpacedPair(history: seq<Offer>, i: int, j: int) {
    0 <= i < j < |history| && history[i].id == history[j].id && history[i].release.text == history[j].release.text
    && (forall k :: i < k < j && history[k].id == history[i].id ==> history[k].release.text == history[i].release.text)
    ==> history[j].checked - history[i].at >= RETRY_INTERVAL_MS
  }

  ghost predicate Spaced(history: seq<Offer>) {
    forall i, j :: 0 <= i < j < |history| ==> SpacedPair(history, i, j)
  }

  /** No reading of the clock so far is later than `now`. */
  predicate Until(history: seq<Offer>, now: int) {
    forall i :: 0 <= i < |history| ==> history[i].at <= now
  }

  lemma RememberedNext(s: State, r: Request)
    requires Remembered(s) && r.checked <= r.at && Until(s.history, r.checked)
    ensures Remembered(Next(s, r)) && Until(Next(s, r).history, r.at)
  {
    hide Chosen;
    var t := Next(s, r);
    if Sent(s.attempts, r).Some? {
      assert LastTo(t.history, r.id, |s.history|);
      forall id | id in t.attempts && id != r.id
        ensures exists i :: LastTo(t.history, id, i)
                            && t.attempts[id] == Attempt(t.history[i].release.text, t.history[i].at)
      {
        var i :| LastTo(s.history, id, i) && s.attempts[id] == Attempt(s.history[i].release.text, s.history[i].at);
        assert LastTo(t.history, id, i);
      }
    }
  }

  lemma SpacedNext(s: State, r: Request)
    requires Remembered(s) && Spaced(s.history)
    ensures Spaced(Next(s, r).history)
  {
    hide Chosen, SpacedPair;
    var t, n := Next(s, r), |s.history|;
    forall i, j | 0 <= i < j < |t.history| ensures SpacedPair(t.history, i, j) {
      if j < n {
        SpacedPrefix(s.history, t.history, i, j);
      } else {
        SpacedLast(s, r, i);
      }
    }
  }

  lemma SpacedPrefix(history: seq<Offer>, more: seq<Offer>, i: int, j: int)
    requires 0 <= i < j < |history| && history <= more && SpacedPair(history, i, j)
    ensures SpacedPair(more, i, j)
  {}

  lemma SpacedLast(s: State, r: Request, i: nat)
    requires Remembered(s) && Sent(s.attempts, r).Some? && i < |s.history|
    ensures SpacedPair(Next(s, r).history, i, |s.history|)
  {
    hide Chosen, Remembered;
    var more, n := Next(s, r).history, |s.history|;
    assert more[..n] == s.history && more[n].id == r.id && more[n].checked == r.checked;
    if s.history[i].id == r.id {
      var k := LastOffer(s, r.id, i);
      assert more[k].id == r.id && more[i].release.text == s.history[i].release.text;
    }
  }

  /** The last offer to a device, which is the one the attempts remember, is not before any other. */
  lemma LastOffer(s: State, id: Bytes, i: nat) returns (k: nat)
    requires Remembered(s) && i < |s.history| && s.history[i].id == id
    ensures i <= k < |s.history| && s.history[k].id == id && s.history[i].at <= s.history[k].at
    ensures id in s.attempts && s.attempts[id] == Attempt(s.history[k].release.text, s.history[k].at)
  {
    var last :| LastTo(s.history, id, last)
        && s.attempts[id] == Attempt(s.history[last].release.text, s.history[last].at);
    k := last;
    if i < k {
      assert s.history[i].at <= s.history[k].checked <= s.history[k].at;
    }
  }

  lemma {:induction false} SpacedRun(s: State, requests: seq<Request>, now: int)
    requires Remembered(s) && Spaced(s.history) && Until(s.history, now) && Monotone(requests)
    requires forall i :: 0 <= i < |requests| ==> now <= requests[i].checked
    ensures Remembered(Run(s, requests)) && Spaced(Run(s, requests).history)
    decreases |requests|
  {
    hide Remembered, Spaced, Next;
    if requests != [] {
      var r := requests[0];
      RememberedNext(s, r);
      SpacedNext(s, r);
      assert forall i :: 0 < i < |requests| ==> requests[0].at <= requests[i].checked;
      SpacedRun(Next(s, r), requests[1..], r.at);
    }
  }

  const START := State(map[], [])

  /**
   * On a clock that never goes back, and whichever path an offer takes: two offers of one version to one device with
   * no other version offered to it between are at least the retry interval apart.
   */
  lemma OffersSpaced(requests: seq<Request>, now: int)
    requires Monotone(requests) && forall i :: 0 <= i < |requests| ==> now <= requests[i].checked
    ensures Spaced(Run(START, requests).history)
  {
    hide Run;
    SpacedRun(START, requests, now);
  }

  predicate SameVersion(a: Release, b: Release) {
    a.version == b.version <==> a.text == b.text
  }

  /** Offer `i` went to this device. */
  predicate To(history: seq<Offer>, id: Bytes, i: int) {
    0 <= i < |history| && history[i].id == id
  }

  /** The versions offered to one device never fall, and each has one text. */
  ghost predicate Rising(history: seq<Offer>, id: Bytes) {
    && (forall i, j :: To(history, id, i) && To(history, id, j) && i < j ==>
          !Less(history[j].release.version, history[i].release.version))
    && (forall i, j :: To(history, id, i) && To(history, id, j) ==> SameVersion(history[i].release, history[j].release))
  }

  /** Where they never fall, the proviso goes: one version is never offered twice within the interval. */
  lemma RisingSpaced(history: seq<Offer>, id: Bytes, i: nat, j: nat)
    requires Spaced(history) && Rising(history, id) && i < j && To(history, id, i) && To(history, id, j)
    requires history[i].release.text == history[j].release.text
    ensures history[j].checked - history[i].at >= RETRY_INTERVAL_MS
  {
    hide Less;
    forall k | i < k < j && history[k].id == id ensures history[k].release.text == history[i].release.text {
      assert To(history, id, k);
      assert !Less(history[k].release.version, history[i].release.version);
      assert !Less(history[j].release.version, history[k].release.version);
      PrecedenceOrder(history[i].release.version, history[k].release.version, history[k].release.version);
    }
    assert SpacedPair(history, i, j);
  }

  /** Request `i` is about this device, for whose hardware there is a latest release. */
  predicate About(requests: seq<Request>, id: Bytes, i: int) {
    0 <= i < |requests| && requests[i].id == id && requests[i].latest.Some?
  }

  /** This device is not pinned, and the latest release it is asked about never falls; others may be anything. */
  ghost predicate UnpinnedRequests(requests: seq<Request>, id: Bytes) {
    && (forall i :: 0 <= i < |requests| && requests[i].id == id ==> !requests[i].settings.pinned)
    && (forall i, j :: About(requests, id, i) && About(requests, id, j) && i < j ==>
          !Less(requests[j].latest.value.version, requests[i].latest.value.version))
    && (forall i, j :: About(requests, id, i) && About(requests, id, j) ==>
          SameVersion(requests[i].latest.value, requests[j].latest.value))
  }

  /** What was offered to this device so far does not exceed what will be. */
  ghost predicate Below(history: seq<Offer>, requests: seq<Request>, id: Bytes) {
    forall i, j :: To(history, id, i) && About(requests, id, j) ==>
      && !Less(requests[j].latest.value.version, history[i].release.version)
      && SameVersion(history[i].release, requests[j].latest.value)
  }

  lemma {:induction false} UnpinnedRises(s: State, requests: seq<Request>, id: Bytes)
    requires UnpinnedRequests(requests, id) && Rising(s.history, id) && Below(s.history, requests, id)
    ensures Rising(Run(s, requests).history, id)
    decreases |requests|
  {
    hide Less, SameVersion, Chosen, TooSoon;
    if requests != [] {
      var r, t, rest := requests[0], Next(s, requests[0]), requests[1..];
      assert forall j :: About(rest, id, j) ==> About(requests, id, j + 1) && rest[j] == requests[j + 1];
      assert forall j :: 0 <= j < |rest| ==> rest[j] == requests[j + 1];
      ChosenLatest(s.attempts, r);
      if Sent(s.attempts, r).Some? {
        assert r.id == id ==> About(requests, id, 0);
        RisingNext(s.history, t.history[|s.history|], id);
        BelowNext(s.history, t.history[|s.history|], rest, id);
      }
      UnpinnedRises(t, rest, id);
    }
  }

  lemma ChosenLatest(attempts: Attempts, r: Request)
    ensures Sent(attempts, r).Some? && !r.settings.pinned ==> Sent(attempts, r) == r.latest
  {
    hide Less;
  }

  lemma RisingNext(history: seq<Offer>, offer: Offer, id: Bytes)
    requires Rising(history, id)
    requires offer.id == id ==>
               forall i :: To(history, id, i) ==>
                 !Less(offer.release.version, history[i].release.version)
                     && SameVersion(history[i].release, offer.release)
    ensures Rising(history + [offer], id)
  {
    hide Less;
    var more := history + [offer];
    assert forall i :: To(more, id, i) ==>
             (To(history, id, i) && more[i] == history[i]) || (i == |history| && offer.id == id);
  }

  lemma BelowNext(history: seq<Offer>, offer: Offer, requests: seq<Request>, id: Bytes)
    requires Below(history, requests, id)
    requires offer.id == id ==>
               forall j :: About(requests, id, j) ==>
                 && !Less(requests[j].latest.value.version, offer.release.version)
                 && SameVersion(offer.release, requests[j].latest.value)
    ensures Below(history + [offer], requests, id)
  {
    hide Less, SameVersion;
    var more := history + [offer];
    assert forall i :: To(more, id, i) ==>
             (To(history, id, i) && more[i] == history[i]) || (i == |history| && offer.id == id);
  }

  /**
   * For an unpinned device whose latest release never falls, on a clock that never goes back, one version is offered
   * at most once per interval, whatever else is offered to it between and whatever happens to other devices.
   */
  lemma UnpinnedOffersSpaced(requests: seq<Request>, now: int, id: Bytes, i: nat, j: nat)
    requires UnpinnedRequests(requests, id) && Monotone(requests)
    requires forall k :: 0 <= k < |requests| ==> now <= requests[k].checked
    requires i < j && To(Run(START, requests).history, id, i) && To(Run(START, requests).history, id, j)
    requires Run(START, requests).history[i].release.text == Run(START, requests).history[j].release.text
    ensures Run(START, requests).history[j].checked - Run(START, requests).history[i].at >= RETRY_INTERVAL_MS
  {
    hide Run, Spaced, Rising, UnpinnedRequests, Monotone;
    OffersSpaced(requests, now);
    NothingYet(requests, id);
    UnpinnedRises(START, requests, id);
    RisingSpaced(Run(START, requests).history, id, i, j);
  }

  lemma NothingYet(requests: seq<Request>, id: Bytes)
    ensures Rising([], id) && Below([], requests, id)
  {}

  /**
   * The proviso is needed: the attempts remember one version per device, so a pin that is switched away and back
   * gets its version offered twice at once, whatever the versions.
   */
  lemma SwitchedPinRepeats(id: Bytes, a: Release, b: Release, current: SemVer, now: int)
    requires a.text != b.text && a.version != current && b.version != current
    ensures var pin := (release: Release) =>
              Request(id, true, Settings(true, true, None), [1], Some(current), Some(release), None, now, now, false);
            Run(START, [pin(a), pin(b), pin(a)]).history ==
            [Offer(id, a, now, now), Offer(id, b, now, now), Offer(id, a, now, now)]
  {
    hide Less;
    var pin := (release: Release) =>
      Request(id, true, Settings(true, true, None), [1], Some(current), Some(release), None, now, now, false);
    var s1 := Next(START, pin(a));
    assert s1 == State(map[id := Attempt(a.text, now)], [Offer(id, a, now, now)]);
    var s2 := Next(s1, pin(b));
    assert s2.attempts[id] == Attempt(b.text, now) && s2.history == [Offer(id, a, now, now), Offer(id, b, now, now)];
    var requests := [pin(a), pin(b), pin(a)];
    assert requests[1..] == [pin(b), pin(a)] && requests[1..][1..] == [pin(a)] && requests[1..][1..][1..] == [];
    var s3 := Next(s2, pin(a));
    RunNext(START, requests, 0);
    RunNext(START, requests, 1);
    RunNext(START, requests, 2);
    assert requests[..0] == [] && requests[..3] == requests;
    assert s3.history == s2.history + [Offer(id, a, now, now)];
  }

  // ---- Once per interval and version, exactly ----

  /**
   * The documented limit: offers of one version to one device are at least the interval apart, whatever lies between.
   */
  ghost predicate Limited(history: seq<Offer>) {
    forall i, j :: 0 <= i < j < |history| ==> LimitedPair(history, i, j)
  }

  predicate LimitedPair(history: seq<Offer>, i: int, j: int)
    requires 0 <= i < j < |history|
  {
    history[i].id == history[j].id && history[i].release.text == history[j].release.text ==>
      history[j].checked - history[i].at >= RETRY_INTERVAL_MS
  }

  /** Offer `i` of this version to this device is less than the interval ago. */
  predicate Recent(history: seq<Offer>, r: Request, release: Release, i: int) {
    && 0 <= i < |history| && history[i].id == r.id && history[i].release.text == release.text
    && r.checked - history[i].at < RETRY_INTERVAL_MS
  }

  /** The version was offered recently, but another one has been since, and the attempts remember only that. */
  ghost predicate Forgotten(s: State, r: Request) {
    && Chosen(r).Some? && !r.fails && r.id in s.attempts && s.attempts[r.id].text != Chosen(r).value.text
    && exists i :: Recent(s.history, r, Chosen(r).value, i)
  }

  /** A call keeps the documented limit if and only if it does not offer a recent version that was forgotten. */
  lemma LimitKeptExactly(s: State, r: Request)
    requires Remembered(s) && Limited(s.history)
    ensures Limited(Next(s, r).history) <==> !Forgotten(s, r)
  {
    hide Chosen, Remembered, LimitedPair;
    var more, n := Next(s, r).history, |s.history|;
    if Sent(s.attempts, r).Some? {
      forall i, j | 0 <= i < j < n ensures LimitedPair(more, i, j) {
        SamePair(s.history, more, i, j);
      }
      forall i | 0 <= i < n ensures LimitedPair(more, i, n) <==> !Recent(s.history, r, Chosen(r).value, i) {
        LastPair(s, r, i);
      }
      if i :| Recent(s.history, r, Chosen(r).value, i) {
        var k := LastOffer(s, r.id, i);
      }
    }
  }

  lemma SamePair(history: seq<Offer>, more: seq<Offer>, i: int, j: int)
    requires 0 <= i < j < |history| && history <= more && LimitedPair(history, i, j)
    ensures LimitedPair(more, i, j)
  {}

  lemma LastPair(s: State, r: Request, i: int)
    requires Sent(s.attempts, r).Some? && 0 <= i < |s.history|
    ensures LimitedPair(Next(s, r).history, i, |s.history|) <==> !Recent(s.history, r, Chosen(r).value, i)
  {
    hide Chosen;
  }

  // ---- When an offer is made ----

  /** The last offer to the device was of this version, less than ten minutes before the check. */
  ghost predicate JustOffered(history: seq<Offer>, r: Request, release: Release) {
    exists i :: LastTo(history, r.id, i) && history[i].release.text == release.text
        && r.checked - history[i].at < 600000
  }

  /** A call that could choose a release and runs into no failure. */
  predicate Ready(r: Request) {
    Chosen(r).Some? && !r.fails
  }

  lemma TooSoonExactly(s: State, r: Request)
    requires Remembered(s) && Chosen(r).Some?
    ensures TooSoon(s.attempts, r, Chosen(r).value) <==> JustOffered(s.history, r, Chosen(r).value)
  {
    hide Chosen;
    if i :| LastTo(s.history, r.id, i) {
      var k := LastOffer(s, r.id, i);
      assert s.history[k].id == r.id;
    }
  }

  /**
   * A call makes an offer if and only if a release is chosen, nothing fails, and it is not the one last offered to the
   * device, less than ten minutes ago. Otherwise it changes nothing.
   */
  lemma OfferedExactly(s: State, r: Request)
    requires Remembered(s)
    ensures Next(s, r) ==
            if Ready(r) && !JustOffered(s.history, r, Chosen(r).value) then
              State(s.attempts[r.id := Attempt(Chosen(r).value.text, r.at)],
                    s.history + [Offer(r.id, Chosen(r).value, r.checked, r.at)])
            else s
  {
    hide Chosen, Remembered;
    if Chosen(r).Some? {
      TooSoonExactly(s, r);
    }
  }

  /** For instance, the same unpinned device is offered the same release again ten minutes later, and not before. */
  lemma OfferedAgain(s: State, r: Request, later: Request)
    requires Remembered(s) && Ready(r) && !JustOffered(s.history, r, Chosen(r).value) && r.checked <= r.at
    requires Until(s.history, r.checked) && later.id == r.id && Ready(later) && Chosen(later) == Chosen(r)
    ensures var t := Next(s, r);
            |Next(t, later).history| == |s.history| + if later.checked - r.at >= 600000 then 2 else 1
  {
    hide Chosen;
    RememberedNext(s, r);
    OfferedExactly(s, r);
    var t := Next(s, r);
    assert LastTo(t.history, r.id, |s.history|);
    OfferedExactly(t, later);
  }

  // ---- The object ----

  class Offers {
    var attempts: Attempts
    ghost var history: seq<Offer>

    ghost function View(): State
      reads this
    {
      State(attempts, history)
    }

    constructor ()
      ensures View() == START
    {
      attempts, history := map[], [];
    }

    method OfferUpdate(r: Request) returns (sent: Option<Release>)
      modifies this
      ensures View() == Next(old(View()), r) && sent == Sent(old(attempts), r)
    {
      hide Less;
      if !r.open || r.hardware == [] || r.current.None? {
        return None;
      }
      if !r.settings.pinned && r.settings.autoUpdate == Some(false) {
        return None;
      }
      var release := if r.settings.pinned then r.pin else r.latest;
      var current := r.current.value;
      if release.None? || release.value.version == current {
        return None;
      }
      if (!r.settings.pinned || !r.settings.allowDowngrade) && Less(release.value.version, current) {
        return None;
      }
      if r.id in attempts && attempts[r.id].text == release.value.text
          && r.checked - attempts[r.id].at < RETRY_INTERVAL_MS {
        return None;
      }
      if r.fails {
        return None;
      }
      attempts := attempts[r.id := Attempt(release.value.text, r.at)];
      history := history + [Offer(r.id, release.value, r.checked, r.at)];
      return release;
    }

    /** The round of offers when new firmware appears or a check ends. */
    method OfferConnected(requests: seq<Request>)
      modifies this
      ensures View() == Run(old(View()), requests)
    {
      hide Next, Run;
      ghost var s := View();
      RunNothing(s);
      for i := 0 to |requests|
        invariant View() == Run(s, requests[..i])
      {
        RunNext(s, requests, i);
        var sent := OfferUpdate(requests[i]);
      }
      assert requests[..|requests|] == requests;
    }
  }

  lemma RunNothing(s: State)
    ensures Run(s, []) == s
  {}

  lemma {:induction false} RunNext(s: State, requests: seq<Request>, i: nat)
    requires i < |requests|
    ensures Run(s, requests[..i + 1]) == Next(Run(s, requests[..i]), requests[i])
    decreases i
  {
    hide Next;
    if i > 0 {
      RunNext(Next(s, requests[0]), requests[1..], i - 1);
      assert requests[..i + 1][1..] == requests[1..][..i] && requests[..i][1..] == requests[1..][..i - 1];
    }
  }
}
