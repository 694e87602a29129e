/**
 The cache of JSON Web Keys (`jwt.rs`): one optional entry with an expiry time behind a
 reader-writer lock, read and refreshed by any number of concurrent `get_key` calls.  The
 endpoint is a function from time to the list it serves (a JWK Set, section 5 of RFC 7517).
 */
module Jwks {
  import opened Prelude

  /** A key; `body` stands for everything but its ID. */
  datatype Jwk = Jwk(kid: string, body: string)

  datatype Cached = Cached(keys: map<string, Jwk>, expiresAt: nat)

  datatype Answer = Found(key: Jwk) | KeyNotFound | ServiceUnavailable

  /** The key `list` offers for `kid`: the last one, should an ID be repeated. */
  ghost predicate Serves(list: seq<Jwk>, kid: string, key: Jwk) {
    exists i: nat :: IsLastFor(list, kid, i) && list[i] == key
  }

  predicate IsLastFor(list: seq<Jwk>, kid: string, i: nat) {
    i < |list| && list[i].kid == kid && forall j :: i < j < |list| ==> list[j].kid != kid
  }

  predicate Lacks(list: seq<Jwk>, kid: string) {
    forall i :: 0 <= i < |list| ==> list[i].kid != kid
  }

  ghost predicate Truthful(list: seq<Jwk>, kid: string, a: Answer) {
    (a.Found? ==> Serves(list, kid, a.key)) && (a.KeyNotFound? ==> Lacks(list, kid))
  }

  /** The list collected into a map. */
  function KeyMap(list: seq<Jwk>): (m: map<string, Jwk>) {
    if list == [] then map[] else
      var last := list[|list| - 1];
      KeyMap(list[..|list| - 1])[last.kid := last]
  }

  function Lookup(keys: map<string, Jwk>, kid: string): Answer {
    if kid in keys then Found(keys[kid]) else KeyNotFound
  }

  lemma {:induction false} LookupIsTruthful(list: seq<Jwk>, kid: string)
    ensures Truthful(list, kid, Lookup(KeyMap(list), kid))
  {
    if list != [] {
      var front := list[..|list| - 1];
      LookupIsTruthful(front, kid);
      if list[|list| - 1].kid == kid {
        assert IsLastFor(list, kid, |list| - 1);
      } else if kid in KeyMap(front) {
        var i: nat :| IsLastFor(front, kid, i) && front[i] == KeyMap(front)[kid];
        assert IsLastFor(list, kid, i);
      }
    }
  }

  predicate Fresh(cache: Option<Cached>, now: nat) {
    cache.Some? && cache.value.expiresAt > now
  }

  // ---------------------------------------------------------------------------
  // One caller
  // ---------------------------------------------------------------------------

  /** The client without interference.  `response` is what a fetch would bring: the list,
      or nothing when the request, its status or its body is bad. */
  class JwksClient {
    var cache: Option<Cached>
    const ttl: nat

    constructor (ttl: nat)
      ensures cache == None && this.ttl == ttl
    {
      cache := None;
      this.ttl := ttl;
    }

    method RefreshCache(response: Option<seq<Jwk>>, storedAt: nat) returns (ok: bool)
      modifies this
      ensures ok == response.Some?
      ensures cache == if ok then Some(Cached(KeyMap(response.value), storedAt + ttl)) else old(cache)
    {
      if response.None? {
        return false;
      }
      cache := Some(Cached(KeyMap(response.value), storedAt + ttl));
      ok := true;
    }

    /** The answer is what the fresh entry says, else what the response says; the entry
        changes only if it was not fresh and the fetch succeeded. */
    method GetKey(kid: string, now: nat, response: Option<seq<Jwk>>, storedAt: nat) returns (answer: Answer)
      modifies this
      ensures Fresh(old(cache), now) ==> cache == old(cache) && answer == Lookup(cache.value.keys, kid)
      ensures !Fresh(old(cache), now) && response.None? ==> cache == old(cache) && answer == ServiceUnavailable
      ensures !Fresh(old(cache), now) && response.Some? ==>
                && cache.Some? && cache.value.expiresAt == storedAt + ttl
                && answer != ServiceUnavailable && Truthful(response.value, kid, answer)
                && forall k :: Truthful(response.value, k, Lookup(cache.value.keys, k))
    {
      if cache.Some? && cache.value.expiresAt > now {
        if kid in cache.value.keys {
          return Found(cache.value.keys[kid]);
        }
        return KeyNotFound;
      }
      var ok := RefreshCache(response, storedAt);
      if !ok {
        return ServiceUnavailable;
      }
      forall k ensures Truthful(response.value, k, Lookup(cache.value.keys, k)) {
        LookupIsTruthful(response.value, k);
      }
      assert Truthful(response.value, kid, Lookup(cache.value.keys, kid));
      if cache.Some? {
        if kid in cache.value.keys {
          return Found(cache.value.keys[kid]);
        }
      }
      answer := KeyNotFound;
    }
  }

  // ---------------------------------------------------------------------------
  // All interleavings
  // ---------------------------------------------------------------------------

  /** `lag` bounds the time from the moment the endpoint serves a list to the moment the
      list is in the cache. */
  datatype Setup = Setup(endpoint: nat -> seq<Jwk>, ttl: nat, lag: nat)

  datatype Request = Key(kid: string) | ForceRefresh

  /** Where a call is.  `begun` is when it was made, `since` when it decided to fetch,
      `servedAt` when the list its answer rests on was served. */
  datatype Phase =
    | Called(req: Request, begun: nat)
    | Fetching(req: Request, begun: nat, since: nat)
    | Fetched(req: Request, begun: nat, since: nat, servedAt: nat)
    | Stored(req: Request, begun: nat, since: nat)
    | Answered(req: Request, begun: nat, answer: Answer, servedAt: nat, fetched: bool)
    | Finished

  predicate Over(p: Phase) {
    p.Answered? || p.Finished?
  }

  /** `servedAt` records when the cached list was served. */
  datatype State = State(now: nat, cache: Option<Cached>, servedAt: nat, callers: map<nat, Phase>)

  function To(s: State, c: nat, p: Phase): State {
    s.(callers := s.callers[c := p])
  }

  datatype Event =
    | Tick(d: nat)
    | Call(c: nat, req: Request)
    | Look(c: nat)
    | Serve(c: nat)
    | Store(c: nat)
    | Reread(c: nat)
    | Fail(c: nat)
    | Abandon(c: nat)

  ghost predicate Step(g: Setup, s: State, e: Event, t: State) {
    match e
    case Tick(d) => t == s.(now := s.now + d)
    case Call(c, req) =>
      && c !in s.callers
      && t == To(s, c, if req.Key? then Called(req, s.now) else Fetching(req, s.now, s.now))
    case _ => e.c in s.callers && CallerStep(g, s, e, s.callers[e.c], t)
  }

  /** A step of the call `e.c`, now in phase `p`.  The first look and the store each happen
      in one step, under the lock; the second look ignores the expiry time; a call may fail
      before it has a list or be dropped by its caller at any time. */
  ghost predicate CallerStep(g: Setup, s: State, e: Event, p: Phase, t: State) {
    match e
    case Look(c) =>
      && p.Called? && p.req.Key?
      && t == To(s, c, if Fresh(s.cache, s.now)
                       then Answered(p.req, p.begun, Lookup(s.cache.value.keys, p.req.kid), s.servedAt, false)
                       else Fetching(p.req, p.begun, s.now))
    case Serve(c) =>
      p.Fetching? && t == To(s, c, Fetched(p.req, p.begun, p.since, s.now))
    case Store(c) =>
      && p.Fetched? && s.now <= p.servedAt + g.lag
      && t == To(s, c, if p.req.Key? then Stored(p.req, p.begun, p.since) else Finished).(
           cache := Some(Cached(KeyMap(g.endpoint(p.servedAt)), s.now + g.ttl)), servedAt := p.servedAt)
    case Reread(c) =>
      && p.Stored? && p.req.Key?
      && t == To(s, c, Answered(p.req, p.begun,
                                if s.cache.Some? then Lookup(s.cache.value.keys, p.req.kid) else KeyNotFound,
                                s.servedAt, true))
    case Fail(c) =>
      && (p.Fetching? || p.Fetched?)
      && t == To(s, c, if p.req.Key? then Answered(p.req, p.begun, ServiceUnavailable, s.servedAt, true) else Finished)
    case Abandon(c) => !Over(p) && t == s.(callers := s.callers - {c})
    case _ => false
  }

  const START := State(0, None, 0, map[])

  ghost predicate Run(g: Setup, states: seq<State>, events: seq<Event>) {
    && |states| == |events| + 1
    && states[0] == START
    && forall i :: 0 <= i < |events| ==> Step(g, states[i], events[i], states[i + 1])
  }

  // ---------------------------------------------------------------------------
  // The invariant
  // ---------------------------------------------------------------------------

  /** The cached list was served by the endpoint, at most `lag` before it was stored. */
  ghost predicate CacheInv(g: Setup, s: State) {
    s.cache.Some? ==>
      && s.cache.value.keys == KeyMap(g.endpoint(s.servedAt))
      && s.servedAt + g.ttl <= s.cache.value.expiresAt <= s.now + g.ttl
      && s.cache.value.expiresAt <= s.servedAt + g.ttl + g.lag
  }

  /** What an answered call may claim: its list was served no longer ago than its path
      allows, and the answer is what that list says. */
  ghost predicate AnswerInv(g: Setup, now: nat, p: Phase) {
    p.Answered? && !p.answer.ServiceUnavailable? ==>
      && p.req.Key?
      && p.servedAt <= now
      && Truthful(g.endpoint(p.servedAt), p.req.kid, p.answer)
      && (if p.fetched then p.begun <= p.servedAt + g.lag else p.begun < p.servedAt + g.ttl + g.lag)
  }

  ghost predicate PhaseInv(g: Setup, s: State, p: Phase) {
    && (!Over(p) ==> p.begun <= s.now)
    && (p.Fetching? || p.Fetched? || p.Stored? ==> p.begun <= p.since <= s.now)
    && (p.Fetched? ==> p.since <= p.servedAt <= s.now)
    && (p.Stored? ==> s.cache.Some? && p.since + g.ttl <= s.cache.value.expiresAt)
    && AnswerInv(g, s.now, p)
  }

  ghost predicate Inv(g: Setup, s: State) {
    CacheInv(g, s) && forall c :: c in s.callers ==> PhaseInv(g, s, s.callers[c])
  }

  lemma StepKeepsPhase(g: Setup, s: State, e: Event, t: State, c: nat)
    requires Inv(g, s) && Step(g, s, e, t) && c in t.callers
    ensures PhaseInv(g, t, t.callers[c])
  {
    if c in s.callers {
      assert PhaseInv(g, s, s.callers[c]);
    }
    if (e.Look? || e.Reread?) && c == e.c && s.cache.Some? {
      LookupIsTruthful(g.endpoint(s.servedAt), s.callers[c].req.kid);
    }
  }

  lemma {:induction false} RunInv(g: Setup, states: seq<State>, events: seq<Event>, i: nat)
    requires Run(g, states, events) && i < |states|
    ensures Inv(g, states[i])
  {
    if i > 0 {
      RunInv(g, states, events, i - 1);
      assert Step(g, states[i - 1], events[i - 1], states[i]);
      forall c | c in states[i].callers ensures PhaseInv(g, states[i], states[i].callers[c]) {
        StepKeepsPhase(g, states[i - 1], events[i - 1], states[i], c);
      }
    }
  }

  // ---------------------------------------------------------------------------
  // What a call may rely on
  // ---------------------------------------------------------------------------

  /** An answer other than an outage is what the endpoint itself said at one moment: the
      key has the requested ID and was served, or no served key had it.  That moment is
      less than `ttl + lag` before the call began, and at most `lag` before if the call
      fetched. */
  lemma AnswersAreWhatTheEndpointServed(g: Setup, states: seq<State>, events: seq<Event>, i: nat, c: nat)
    returns (servedAt: nat)
    requires Run(g, states, events) && i < |states| && c in states[i].callers && states[i].callers[c].Answered?
    requires states[i].callers[c].answer != ServiceUnavailable
    ensures states[i].callers[c].req.Key?
    ensures servedAt <= states[i].now
    ensures Truthful(g.endpoint(servedAt), states[i].callers[c].req.kid, states[i].callers[c].answer)
    ensures states[i].callers[c].answer.Found? ==> states[i].callers[c].answer.key.kid == states[i].callers[c].req.kid
    ensures states[i].callers[c].begun < servedAt + g.ttl + g.lag || states[i].callers[c].fetched
    ensures states[i].callers[c].fetched ==> states[i].callers[c].begun <= servedAt + g.lag
  {
    RunInv(g, states, events, i);
    var p := states[i].callers[c];
    assert PhaseInv(g, states[i], p);
    servedAt := p.servedAt;
  }

  /** The bound is exact: there are calls answered from a list that is as old as that. */
  lemma AgeBoundIsReached(g: Setup, kid: string) returns (states: seq<State>, events: seq<Event>)
    requires g.ttl > 0
    ensures Run(g, states, events)
    ensures 1 in states[|states| - 1].callers
    ensures var p := states[|states| - 1].callers[1];
            && p.Answered? && p.answer != ServiceUnavailable && !p.fetched
            && p.begun + 1 == p.servedAt + g.ttl + g.lag
  {
    var k := Key(kid);
    var cached := Some(Cached(KeyMap(g.endpoint(0)), g.lag + g.ttl));
    var answer := Lookup(cached.value.keys, kid);
    var s1 := To(START, 0, Called(k, 0));
    var s2 := To(s1, 0, Fetching(k, 0, 0));
    var s3 := To(s2, 0, Fetched(k, 0, 0, 0));
    var s4 := s3.(now := g.lag);
    var s5 := To(s4, 0, Stored(k, 0, 0)).(cache := cached, servedAt := 0);
    var s6 := s5.(now := g.lag + g.ttl - 1);
    var s7 := To(s6, 1, Called(k, s6.now));
    var s8 := To(s7, 1, Answered(k, s6.now, answer, 0, false));
    states := [START, s1, s2, s3, s4, s5, s6, s7, s8];
    events := [Call(0, k), Look(0), Serve(0), Tick(g.lag), Store(0), Tick(g.ttl - 1), Call(1, k), Look(1)];
  }

  /** A call that fetched answers from the cache, not from its own response: when another
      response is stored in between, the key its own response held can be reported missing. */
  lemma OwnResponseCanBeOverwritten(g: Setup, key: Jwk) returns (states: seq<State>, events: seq<Event>)
    requires g.lag > 0 && g.endpoint(0) == [] && g.endpoint(1) == [key]
    ensures Run(g, states, events)
    ensures |states| == 11 && 1 in states[7].callers && 1 in states[10].callers
    ensures states[7].callers[1].Fetched? && states[7].callers[1].req == Key(key.kid)
    ensures Serves(g.endpoint(states[7].callers[1].servedAt), key.kid, key)
    ensures states[10].callers[1].Answered? && states[10].callers[1].answer == KeyNotFound
  {
    var k := Key(key.kid);
    states, events := TwoFetches(g, key.kid, 1);
    var s8 := To(states[7], 1, Stored(k, 0, 0)).(cache := Some(Cached(KeyMap([key]), 1 + g.ttl)), servedAt := 1);
    states, events := Extend(g, states, events, Store(1), s8);
    var s9 := To(s8, 0, Stored(k, 0, 0)).(cache := Some(Cached(KeyMap([]), 1 + g.ttl)), servedAt := 0);
    states, events := Extend(g, states, events, Store(0), s9);
    states, events := Extend(g, states, events, Reread(1), To(s9, 1, Answered(k, 0, KeyNotFound, 0, true)));
    assert IsLastFor([key], key.kid, 0);
  }

  lemma Extend(g: Setup, states: seq<State>, events: seq<Event>, e: Event, t: State)
    returns (states': seq<State>, events': seq<Event>)
    requires Run(g, states, events) && Step(g, states[|states| - 1], e, t)
    ensures states' == states + [t] && events' == events + [e] && Run(g, states', events')
  {
    states', events' := states + [t], events + [e];
  }

  /** Two calls find no entry and fetch; the endpoint serves one at once, the other later. */
  lemma TwoFetches(g: Setup, kid: string, later: nat) returns (states: seq<State>, events: seq<Event>)
    ensures Run(g, states, events) && |states| == 8
    ensures states[7] == State(later, None, 0, map[0 := Fetched(Key(kid), 0, 0, 0), 1 := Fetched(Key(kid), 0, 0, later)])
  {
    var k := Key(kid);
    var s1 := To(START, 0, Called(k, 0));
    var s2 := To(s1, 1, Called(k, 0));
    var s3 := To(s2, 0, Fetching(k, 0, 0));
    var s4 := To(s3, 1, Fetching(k, 0, 0));
    var s5 := To(s4, 0, Fetched(k, 0, 0, 0));
    var s6 := s5.(now := later);
    var s7 := To(s6, 1, Fetched(k, 0, 0, later));
    states := [START, s1, s2, s3, s4, s5, s6, s7];
    events := [Call(0, k), Call(1, k), Look(0), Look(1), Serve(0), Tick(later), Serve(1)];
  }

  // ---------------------------------------------------------------------------
  // How often the endpoint is asked
  // ---------------------------------------------------------------------------

  predicate Misses(s: State, e: Event, t: State) {
    e.Look? && e.c in t.callers && t.callers[e.c].Fetching?
  }

  /** The entry in the cache after a store never expires earlier than that store's own. */
  lemma {:induction false} ExpiryNeverGoesBack(g: Setup, states: seq<State>, events: seq<Event>, k: nat, i: nat)
    requires Run(g, states, events) && k < i < |states| && events[k].Store?
    ensures states[i].cache.Some? && states[i].cache.value.expiresAt >= states[k].now + g.ttl
    ensures states[i].now >= states[k].now
  {
    assert Step(g, states[i - 1], events[i - 1], states[i]);
    if k < i - 1 {
      ExpiryNeverGoesBack(g, states, events, k, i - 1);
    }
  }

  /** In every interleaving, a lookup decides to fetch only when every earlier store is at
      least `ttl` old, whatever keys are asked for. */
  lemma {:induction false} FetchesWaitForExpiry(g: Setup, states: seq<State>, events: seq<Event>, k: nat, i: nat)
    requires Run(g, states, events) && k < i < |events|
    requires events[k].Store? && Misses(states[i], events[i], states[i + 1])
    ensures states[i].now >= states[k].now + g.ttl
  {
    ExpiryNeverGoesBack(g, states, events, k, i);
    assert Step(g, states[i], events[i], states[i + 1]);
  }

  /** No two calls are under way together. */
  ghost predicate Alone(s: State) {
    forall c, d :: c in s.callers && d in s.callers && !Over(s.callers[c]) && !Over(s.callers[d]) ==> c == d
  }

  ghost predicate Sequential(states: seq<State>, events: seq<Event>) {
    && (forall i :: 0 <= i < |states| ==> Alone(states[i]))
    && forall i :: 0 <= i < |events| ==> !(events[i].Call? && events[i].req.ForceRefresh?)
  }

  /** While a lone call fetches, the entry it found expired is still the cached one. */
  ghost predicate FetchInv(s: State) {
    forall c :: c in s.callers && (s.callers[c].Fetching? || s.callers[c].Fetched?) ==>
      && s.callers[c].req.Key?
      && (s.cache.Some? ==> s.cache.value.expiresAt <= s.callers[c].since)
  }

  lemma {:induction false} LoneFetch(g: Setup, states: seq<State>, events: seq<Event>, i: nat)
    requires Run(g, states, events) && Sequential(states, events) && i < |states|
    ensures FetchInv(states[i])
  {
    if i > 0 {
      LoneFetch(g, states, events, i - 1);
      assert Step(g, states[i - 1], events[i - 1], states[i]);
      assert Alone(states[i - 1]);
    }
  }

  /** With calls one after another, each fetch that succeeds begins at least `ttl` after
      the previous one was stored. */
  lemma SequentialFetchesAreATtlApart(g: Setup, states: seq<State>, events: seq<Event>, k: nat, m: nat)
    requires Run(g, states, events) && Sequential(states, events)
    requires k < m < |events| && events[k].Store? && events[m].Store?
    ensures events[m].c in states[m].callers && states[m].callers[events[m].c].Fetched?
    ensures states[m].callers[events[m].c].since >= states[k].now + g.ttl
    ensures states[m].now >= states[k].now + g.ttl
  {
    assert Step(g, states[m], events[m], states[m + 1]);
    LoneFetch(g, states, events, m);
    ExpiryNeverGoesBack(g, states, events, k, m);
    RunInv(g, states, events, m);
    assert PhaseInv(g, states[m], states[m].callers[events[m].c]);
  }

  // ---------------------------------------------------------------------------
  // Whose response a call answers from
  // ---------------------------------------------------------------------------

  ghost predicate NoStoreBetween(events: seq<Event>, k: nat, m: nat) {
    forall j :: k < j < m && j < |events| ==> !events[j].Store?
  }

  /** What the call `events[k].c` fetched and stores at `k` says about `kid`. */
  ghost function StoredAnswer(g: Setup, states: seq<State>, events: seq<Event>, k: nat, kid: string): Answer
    requires k < |events| && k < |states| && events[k].Store?
    requires events[k].c in states[k].callers && states[k].callers[events[k].c].Fetched?
  {
    Lookup(KeyMap(g.endpoint(states[k].callers[events[k].c].servedAt)), kid)
  }

  ghost predicate IsStore(states: seq<State>, events: seq<Event>, k: nat) {
    && k < |events| && k < |states| && events[k].Store?
    && events[k].c in states[k].callers && states[k].callers[events[k].c].Fetched?
  }

  /** The cache holds what the last store put there. */
  lemma {:induction false} LastStore(g: Setup, states: seq<State>, events: seq<Event>, i: nat) returns (l: nat)
    requires Run(g, states, events) && i < |states| && states[i].cache.Some?
    ensures l < i && IsStore(states, events, l) && NoStoreBetween(events, l, i)
    ensures states[i].cache.value.keys == KeyMap(g.endpoint(states[l].callers[events[l].c].servedAt))
  {
    assert Step(g, states[i - 1], events[i - 1], states[i]);
    if events[i - 1].Store? {
      l := i - 1;
    } else {
      l := LastStore(g, states, events, i - 1);
    }
  }

  /** A call about to re-read has stored its own response, and has not stored again. */
  lemma {:induction false} OwnStore(g: Setup, states: seq<State>, events: seq<Event>, i: nat, c: nat) returns (k: nat)
    requires Run(g, states, events) && i < |states| && c in states[i].callers && states[i].callers[c].Stored?
    ensures k < i && events[k] == Store(c) && IsStore(states, events, k)
    ensures states[i].callers[c].req == states[k].callers[c].req
    ensures states[i].callers[c].begun == states[k].callers[c].begun
    ensures forall j :: k < j <= i ==> c in states[j].callers && states[j].callers[c] == states[i].callers[c]
    ensures forall j :: k < j < i ==> events[j] != Store(c)
  {
    assert Step(g, states[i - 1], events[i - 1], states[i]);
    if events[i - 1] == Store(c) {
      k := i - 1;
    } else {
      k := OwnStore(g, states, events, i - 1, c);
    }
  }

  /** A call that fetched answers what the last stored response says, its own at `own` or
      a later one at `last`.  Its own response decides if nothing was stored in between;
      otherwise the answer differs from its own response exactly when the two lists
      disagree on the key. */
  lemma AnswerIsOwnUnlessOverwritten(g: Setup, states: seq<State>, events: seq<Event>, m: nat)
    returns (own: nat, last: nat)
    requires Run(g, states, events) && m < |events| && events[m].Reread?
    ensures var c := events[m].c;
            && own <= last < m && IsStore(states, events, own) && IsStore(states, events, last)
            && events[own].c == c && NoStoreBetween(events, last, m)
            && c in states[m + 1].callers && states[m + 1].callers[c].Answered? && states[m + 1].callers[c].req.Key?
            && var p := states[m + 1].callers[c];
               && states[own].callers[c].req == p.req && states[own].callers[c].begun == p.begun
               && p.answer == StoredAnswer(g, states, events, last, p.req.kid)
               && (NoStoreBetween(events, own, m) <==> own == last)
               && (p.answer != StoredAnswer(g, states, events, own, p.req.kid) <==>
                   StoredAnswer(g, states, events, last, p.req.kid) != StoredAnswer(g, states, events, own, p.req.kid))
  {
    assert Step(g, states[m], events[m], states[m + 1]);
    var c := events[m].c;
    own := OwnStore(g, states, events, m, c);
    RunInv(g, states, events, m);
    assert PhaseInv(g, states[m], states[m].callers[c]);
    last := LastStore(g, states, events, m);
  }

  /** With calls one after another a call that fetched always answers from its own
      response. */
  lemma LoneCallAnswersFromItsOwnResponse(g: Setup, states: seq<State>, events: seq<Event>, m: nat) returns (own: nat)
    requires Run(g, states, events) && Sequential(states, events) && m < |events| && events[m].Reread?
    ensures own < m && IsStore(states, events, own) && events[own].c == events[m].c
    ensures var c := events[m].c;
            && c in states[m + 1].callers && states[m + 1].callers[c].Answered? && states[m + 1].callers[c].req.Key?
            && states[m + 1].callers[c].answer == StoredAnswer(g, states, events, own, states[m + 1].callers[c].req.kid)
  {
    var last: nat;
    own, last := AnswerIsOwnUnlessOverwritten(g, states, events, m);
    assert Step(g, states[m], events[m], states[m + 1]);
    var k := OwnStore(g, states, events, m, events[m].c);
    assert Alone(states[last]);
    assert k == last;
    own := last;
  }

  /** Calls that overlap can all fetch: nothing makes the second wait for the first. */
  lemma OverlappingFetchesCanCoincide(g: Setup, kid: string) returns (states: seq<State>, events: seq<Event>)
    ensures Run(g, states, events)
    ensures |events| == 9 && events[7].Store? && events[8].Store? && events[7].c != events[8].c
    ensures states[7].now == states[8].now
  {
    var k := Key(kid);
    var cached := Some(Cached(KeyMap(g.endpoint(0)), g.ttl));
    states, events := TwoFetches(g, kid, 0);
    var s8 := To(states[7], 0, Stored(k, 0, 0)).(cache := cached, servedAt := 0);
    states, events := Extend(g, states, events, Store(0), s8);
    states, events := Extend(g, states, events, Store(1), To(s8, 1, Stored(k, 0, 0)));
  }
}
