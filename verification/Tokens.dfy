/** The download tokens of src/firmware/tokens.js. */
module Tokens {
  import opened Prelude

  type Token = Bytes

  /** What a token stands for. */
  datatype Terms = Terms(deviceId: Bytes, release: nat, expires: int)

  datatype GrantState = GrantState(terms: Terms, uses: int)

  type Stored = map<Token, GrantState>

  const USES: int := 2

  // ---- One call ----

  function Swept(stored: Stored, now: int): Stored {
    map token | token in stored && stored[token].terms.expires > now :: stored[token]
  }

  function Issued(stored: Stored, now: int, lifetime: nat, token: Token, deviceId: Bytes, release: nat): Stored {
    Swept(stored, now)[token := GrantState(Terms(deviceId, release, now + lifetime), USES)]
  }

  /** The grant handed out, if any: the use is counted only for an unexpired grant. */
  function Consumed(stored: Stored, now: int, token: Token): (Stored, Option<Terms>) {
    if token !in stored || stored[token].terms.expires <= now || stored[token].uses <= 0 then
      (map t | t in stored && t != token :: stored[t], None)
    else
      var left := stored[token].(uses := stored[token].uses - 1);
      (if left.uses == 0 then map t | t in stored && t != token :: stored[t]
          else stored[token := left], Some(left.terms))
  }

  // ---- Whole runs ----

  /** A successful use. */
  datatype Use = Use(token: Token, terms: Terms, now: int)

  /** The stored grants, and what has happened: the terms every token was issued with, and every successful use. */
  datatype State = State(stored: Stored, issued: map<Token, Terms>, uses: seq<Use>)

  datatype Event =
    | Issue(now: int, lifetime: nat, token: Token, deviceId: Bytes, release: nat)
    | Consume(now: int, token: Token)

  function Next(s: State, e: Event): State {
    match e
    case Issue(now, lifetime, token, deviceId, release) =>
      State(Issued(s.stored, now, lifetime, token, deviceId, release),
            s.issued[token := Terms(deviceId, release, now + lifetime)], s.uses)
    case Consume(now, token) =>
      var (stored, grant) := Consumed(s.stored, now, token);
      State(stored, s.issued, if grant.Some? then s.uses + [Use(token, grant.value, now)] else s.uses)
  }

  function Run(s: State, events: seq<Event>): State
    decreases |events|
  {
    if events == [] then s else Run(Next(s, events[0]), events[1..])
  }

  /** Random tokens do not repeat. */
  predicate FreshRun(s: State, events: seq<Event>)
    decreases |events|
  {
    events == [] || ((events[0].Issue? ==> events[0].token !in s.issued) && FreshRun(Next(s, events[0]), events[1..]))
  }

  function Count(uses: seq<Use>, token: Token): nat {
    if uses == [] then 0 else Count(uses[..|uses| - 1], token) + if uses[|uses| - 1].token == token then 1 else 0
  }

  /** Every use kept the terms its token was issued with, and came before they expired. */
  predicate Honoured(s: State) {
    forall i :: 0 <= i < |s.uses| ==>
      var use := s.uses[i];
      use.token in s.issued && use.terms == s.issued[use.token] && use.now < use.terms.expires
  }

  ghost predicate Inv(s: State) {
    && Honoured(s)
    && (forall token :: token in s.stored ==>
          && token in s.issued && s.stored[token].terms == s.issued[token]
          && 1 <= s.stored[token].uses <= USES && Count(s.uses, token) + s.stored[token].uses == USES)
    && (forall token :: Count(s.uses, token) <= USES)
    && (forall token :: token !in s.issued ==> Count(s.uses, token) == 0)
  }

  lemma CountNext(uses: seq<Use>, use: Use, token: Token)
    ensures Count(uses + [use], token) == Count(uses, token) + if use.token == token then 1 else 0
  {
    assert (uses + [use])[..|uses|] == uses;
  }

  lemma IssueInv(s: State, e: Event)
    requires Inv(s) && e.Issue? && e.token !in s.issued
    ensures Inv(Next(s, e))
  {
    hide Count;
  }

  lemma ConsumeInv(s: State, e: Event)
    requires Inv(s) && e.Consume?
    ensures Inv(Next(s, e))
  {
    hide Count;
    var t := Next(s, e);
    if |t.uses| > |s.uses| {
      var use := t.uses[|s.uses|];
      forall token ensures Count(t.uses, token) == Count(s.uses, token) + if use.token == token then 1 else 0 {
        CountNext(s.uses, use, token);
      }
    }
  }

  lemma {:induction false} InvRun(s: State, events: seq<Event>)
    requires Inv(s) && FreshRun(s, events)
    ensures Inv(Run(s, events))
    decreases |events|
  {
    hide Inv, Next;
    if events != [] {
      if events[0].Issue? { IssueInv(s, events[0]); } else { ConsumeInv(s, events[0]); }
      InvRun(Next(s, events[0]), events[1..]);
    }
  }

  const START := State(map[], map[], [])

  /**
   * Over any interleaving of calls with any clock readings: each token is used at most twice, only before its
   * expiry, with the device and release it was issued for; and every stored grant has one or two uses left.
   */
  lemma UseBound(events: seq<Event>, token: Token)
    requires FreshRun(START, events)
    ensures var s := Run(START, events);
            && Count(s.uses, token) <= USES && Honoured(s)
            && (token in s.stored ==> 1 <= s.stored[token].uses <= USES)
  {
    hide Run, FreshRun;
    InvRun(START, events);
  }

  /** A token that is stored and not expired is good for exactly the uses it has left. */
  lemma StoredSucceeds(s: State, now: int, token: Token)
    requires Inv(s)
    ensures Consumed(s.stored, now, token).1.Some? <==> token in s.stored && now < s.stored[token].terms.expires
  {
    hide Count;
  }

  // ---- What a token is good for ----

  /** How often the token is presented. */
  function Presented(events: seq<Event>, token: Token): nat {
    if events == [] then 0
    else Presented(events[..|events| - 1], token)
         + if events[|events| - 1].Consume? && events[|events| - 1].token == token then 1 else 0
  }

  /** All of it happens before this time. */
  predicate Before(events: seq<Event>, time: int) {
    forall i :: 0 <= i < |events| ==> events[i].now < time
  }

  /** The grant that is left of an issued token after it was presented so often. */
  predicate Left(s: State, token: Token, terms: Terms, presented: nat) {
    && token in s.issued && s.issued[token] == terms
    && if presented < 2 then token in s.stored && s.stored[token] == GrantState(terms, 2 - presented)
       else token !in s.stored
  }

  lemma LeftNext(s: State, e: Event, token: Token, terms: Terms, presented: nat)
    requires Left(s, token, terms, presented) && e.now < terms.expires && (e.Issue? ==> e.token !in s.issued)
    ensures Left(Next(s, e), token, terms, presented + if e.Consume? && e.token == token then 1 else 0)
  {}

  lemma {:induction false} RunLast(s: State, events: seq<Event>)
    requires events != [] && FreshRun(s, events)
    ensures var front, last := events[..|events| - 1], events[|events| - 1];
            && FreshRun(s, front) && Run(s, events) == Next(Run(s, front), last)
            && (last.Issue? ==> last.token !in Run(s, front).issued)
    decreases |events|
  {
    hide Next;
    if |events| > 1 {
      RunLast(Next(s, events[0]), events[1..]);
      assert events[1..][..|events| - 2] == events[..|events| - 1][1..];
    }
  }

  lemma {:induction false} LeftRun(s: State, events: seq<Event>, token: Token, terms: Terms)
    requires Left(s, token, terms, 0) && FreshRun(s, events) && Before(events, terms.expires)
    ensures Left(Run(s, events), token, terms, Presented(events, token))
    decreases |events|
  {
    hide Left, Next, FreshRun;
    if events != [] {
      RunLast(s, events);
      LeftRun(s, events[..|events| - 1], token, terms);
      LeftNext(Run(s, events[..|events| - 1]), events[|events| - 1], token, terms,
          Presented(events[..|events| - 1], token));
    }
  }

  /**
   * Whatever else is issued and used meanwhile: until it expires, an issued token is good for the first two times it
   * is presented, with the device and release it was issued for, and for no other.
   */
  lemma TwoUses(s: State, e: Event, events: seq<Event>, now: int)
    requires e.Issue? && e.token !in s.issued && FreshRun(Next(s, e), events)
    requires Before(events, e.now + e.lifetime) && now < e.now + e.lifetime
    ensures var terms := Terms(e.deviceId, e.release, e.now + e.lifetime);
            Consumed(Run(Next(s, e), events).stored, now, e.token).1 ==
            if Presented(events, e.token) < 2 then Some(terms) else None
  {
    hide Run, FreshRun, Presented;
    LeftRun(Next(s, e), events, e.token, Terms(e.deviceId, e.release, e.now + e.lifetime));
  }

  /** Issuing a token drops exactly the expired ones and keeps the others as they are. */
  lemma IssueKeeps(s: State, e: Event, token: Token)
    requires e.Issue? && token != e.token
    ensures var t := Next(s, e).stored;
            && (token in t <==> token in s.stored && e.now < s.stored[token].terms.expires)
            && (token in t ==> t[token] == s.stored[token])
            && e.token in t && t[e.token] == GrantState(Terms(e.deviceId, e.release, e.now + e.lifetime), 2)
  {}

  // ---- The class ----

  class Grant {
    const terms: Terms
    var uses: int

    constructor (terms: Terms, uses: int)
      ensures this.terms == terms && this.uses == uses
    {
      this.terms, this.uses := terms, uses;
    }
  }

  class OtaTokens {
    const lifetime: nat
    var tokens: map<Token, Grant>

    /** No two tokens share a grant. */
    ghost predicate Valid()
      reads this
    {
      forall a, b :: a in tokens && b in tokens && a != b ==> tokens[a] != tokens[b]
    }

    ghost function View(): Stored
      reads this, tokens.Values
    {
      map token | token in tokens :: GrantState(tokens[token].terms, tokens[token].uses)
    }

    constructor (lifetime: nat)
      ensures Valid() && this.lifetime == lifetime && View() == map[]
    {
      this.lifetime, tokens := lifetime, map[];
    }

    /** `token` is 32 random bytes in base64url. */
    method Issue(now: int, token: Token, deviceId: Bytes, release: nat)
      requires Valid()
      modifies this
      ensures Valid() && View() == Issued(old(View()), now, lifetime, token, deviceId, release)
    {
      Sweep(now);
      var grant := new Grant(Terms(deviceId, release, now + lifetime), USES);
      tokens := tokens[token := grant];
    }

    /** The loop over the stored grants that deletes the expired ones. */
    method Sweep(now: int)
      requires Valid()
      modifies this
      ensures Valid() && View() == Swept(old(View()), now)
      ensures tokens.Keys <= old(tokens).Keys && forall token :: token in tokens ==> tokens[token] == old(tokens)[token]
    {
      var pending := tokens.Keys;
      ghost var all := tokens;
      while pending != {}
        invariant pending <= tokens.Keys && tokens.Keys <= all.Keys && tokens.Keys + pending == tokens.Keys
        invariant forall token :: token in tokens ==> tokens[token] == all[token]
        invariant forall token :: token in all && token !in pending ==>
                    (token in tokens <==> all[token].terms.expires > now)
        decreases pending
      {
        var token :| token in pending;
        pending := pending - {token};
        if tokens[token].terms.expires <= now {
          tokens := map t | t in tokens && t != token :: tokens[t];
        }
      }
    }

    method Consume(now: int, token: Token) returns (grant: Option<Grant>)
      requires Valid()
      modifies this, tokens.Values
      ensures Valid() && View() == Consumed(old(View()), now, token).0
      ensures grant.Some? <==> Consumed(old(View()), now, token).1.Some?
      ensures grant.Some? ==> Some(grant.value.terms) == Consumed(old(View()), now, token).1
    {
      if token !in tokens || tokens[token].terms.expires <= now || tokens[token].uses <= 0 {
        if token in tokens && tokens[token].terms.expires > now {
          tokens[token].uses := tokens[token].uses - 1;
        }
        tokens := map t | t in tokens && t != token :: tokens[t];
        return None;
      }
      var found := tokens[token];
      found.uses := found.uses - 1;
      if found.uses == 0 {
        tokens := map t | t in tokens && t != token :: tokens[t];
      }
      return Some(found);
    }
  }
}
