/**
 The token refresh loop (`token_manager.rs`), the client side of the client credentials
 grant of section 4.4 of RFC 6749 with `expires_in` from section 5.1.

 Time is in milliseconds; expiry times are Unix timestamps in whole seconds, as the
 source keeps them.
 */
module TokenRefresh {
  import opened Prelude

  const INITIAL_BACKOFF_MS: nat := 1_000
  const MAX_BACKOFF_MS: nat := 30_000
  const CLOCK_DRIFT_MARGIN_SECS: int := 30
  const DEFAULT_REFRESH_THRESHOLD_SECS: nat := 300
  const DEFAULT_HTTP_TIMEOUT_MS: nat := 10_000

  function Secs(ms: nat): nat {
    ms / 1000
  }

  /** `expires_in as i64` on an unsigned 64-bit value. */
  function AsI64(u: nat): int {
    var w := u % 0x1_0000_0000_0000_0000;
    if w < 0x8000_0000_0000_0000 then w else w - 0x1_0000_0000_0000_0000
  }

  function NeedsRefresh(expiresAt: Option<int>, threshold: nat, now: nat): bool {
    expiresAt.None? || expiresAt.value - now <= threshold + CLOCK_DRIFT_MARGIN_SECS
  }

  function SleepSecs(expiresAt: Option<int>, threshold: nat, now: nat): (s: nat)
    ensures s >= 1
  {
    if expiresAt.None? then 1
    else
      var wait := expiresAt.value - threshold - CLOCK_DRIFT_MARGIN_SECS - now;
      if wait < 1 then 1 else wait
  }

  function NextBackoff(backoff: nat): nat {
    if backoff * 2 < MAX_BACKOFF_MS then backoff * 2 else MAX_BACKOFF_MS
  }

  datatype Token = Token(text: string, expiresAt: int)

  // ---------------------------------------------------------------------------
  // One turn of the loop
  // ---------------------------------------------------------------------------

  /** The outcome of `acquire_token`: the token text with its lifetime, read at a moment. */
  datatype Reply = Granted(text: string, expiresIn: nat, at: nat) | Refused

  class Refresher {
    const threshold: nat
    var backoff: nat
    var expiresAt: Option<int>
    var published: Option<Token>

    constructor (threshold: nat)
      ensures this.threshold == threshold
      ensures backoff == INITIAL_BACKOFF_MS && expiresAt == None && published == None
    {
      this.threshold := threshold;
      backoff, expiresAt, published := INITIAL_BACKOFF_MS, None, None;
    }

    /** From the refresh decision at `decideAt` to the sleep it ends with, computed at
        `sleepAt`; returns the milliseconds slept. */
    method Turn(decideAt: nat, reply: Reply, sleepAt: nat) returns (sleep: nat)
      modifies this
      ensures var asks := old(expiresAt).None? || old(expiresAt).value - decideAt / 1000 <= threshold + 30;
              if asks && reply.Refused? then
                && sleep == old(backoff)
                && backoff == (if old(backoff) * 2 < 30_000 then old(backoff) * 2 else 30_000)
                && expiresAt == old(expiresAt) && published == old(published)
              else
                && sleep == (var due := if expiresAt.Some? then expiresAt.value - threshold - 30 - sleepAt / 1000 else 1;
                             1000 * if due > 1 then due else 1)
                && (if asks then
                      && published == Some(Token(reply.text, reply.at / 1000 + AsI64(reply.expiresIn)))
                      && expiresAt == Some(published.value.expiresAt)
                      && backoff == 1_000
                    else backoff == old(backoff) && expiresAt == old(expiresAt) && published == old(published))
    {
      var needsRefresh := true;
      if expiresAt.Some? {
        needsRefresh := expiresAt.value - Secs(decideAt) <= threshold + CLOCK_DRIFT_MARGIN_SECS;
      }
      if needsRefresh {
        match reply {
          case Granted(text, expiresIn, at) =>
            var newExpiresAt := Secs(at) + AsI64(expiresIn);
            expiresAt := Some(newExpiresAt);
            published := Some(Token(text, newExpiresAt));
            backoff := INITIAL_BACKOFF_MS;
          case Refused =>
            sleep := backoff;
            backoff := if backoff * 2 < MAX_BACKOFF_MS then backoff * 2 else MAX_BACKOFF_MS;
            return;
        }
      }
      var sleepSecs := 1;
      if expiresAt.Some? {
        var refreshAt := expiresAt.value - threshold - CLOCK_DRIFT_MARGIN_SECS;
        if refreshAt - Secs(sleepAt) > 1 {
          sleepSecs := refreshAt - Secs(sleepAt);
        }
      }
      sleep := 1000 * sleepSecs;
    }
  }

  // ---------------------------------------------------------------------------
  // The loop in time
  // ---------------------------------------------------------------------------

  datatype Phase =
    | Deciding
    | Acquiring(since: nat)
    | BackingOff(until: nat)
    | Publishing(token: Token)
    | Settling
    | Sleeping(until: nat)

  /** `failures` counts failed attempts since the last success; `episode` is the moment the
      present refresh was due, that is, the end of the last scheduled sleep.  `handedOut` is
      the result of `spawn_token_manager` once it has looked at the first token: readers
      exist if it is true. */
  datatype State = State(
    now: nat,
    phase: Phase,
    backoff: nat,
    expiresAt: Option<int>,
    published: Option<Token>,
    failures: nat,
    episode: nat,
    handedOut: Option<bool>)

  /** `spawn_token_manager` has returned a receiver. */
  predicate HasReaders(s: State) {
    s.handedOut == Some(true)
  }

  datatype Event =
    | Tick(ms: nat)
    | Decide
    | Fail
    | Grant(text: string, expiresIn: nat)
    | Publish
    | Settle
    | Wake
    | HandOut

  ghost predicate Step(threshold: nat, s: State, e: Event, t: State) {
    match e
    case Tick(ms) => t == s.(now := s.now + ms)
    case Decide =>
      && s.phase.Deciding?
      && t == s.(phase := if NeedsRefresh(s.expiresAt, threshold, Secs(s.now)) then Acquiring(s.now) else Settling)
    case Fail =>
      && s.phase.Acquiring?
      && t == s.(phase := BackingOff(s.now + s.backoff), backoff := NextBackoff(s.backoff), failures := s.failures + 1)
    case Grant(text, expiresIn) =>
      && s.phase.Acquiring?
      && t == s.(phase := Publishing(Token(text, Secs(s.now) + AsI64(expiresIn))))
    case Publish =>
      && s.phase.Publishing?
      && t == s.(phase := Settling, published := Some(s.phase.token), expiresAt := Some(s.phase.token.expiresAt),
                 backoff := INITIAL_BACKOFF_MS, failures := 0)
    case Settle =>
      && s.phase.Settling?
      && t == s.(phase := Sleeping(s.now + 1000 * SleepSecs(s.expiresAt, threshold, Secs(s.now))))
    case Wake =>
      || (s.phase.BackingOff? && s.now >= s.phase.until && t == s.(phase := Deciding))
      || (s.phase.Sleeping? && s.now >= s.phase.until && t == s.(phase := Deciding, episode := s.phase.until))
    case HandOut =>
      && s.published.Some? && s.handedOut.None?
      && t == s.(handedOut := Some(s.published.value.text != ""))
  }

  ghost predicate Run(threshold: nat, states: seq<State>, events: seq<Event>) {
    && |states| == |events| + 1
    && states[0] == State(states[0].now, Deciding, INITIAL_BACKOFF_MS, None, None, 0, states[0].now, None)
    && forall i :: 0 <= i < |events| ==> Step(threshold, states[i], events[i], states[i + 1])
  }

  // ---------------------------------------------------------------------------
  // Every wake-up refreshes
  // ---------------------------------------------------------------------------

  predicate Refreshing(p: Phase) {
    p.Deciding? || p.Acquiring? || p.BackingOff? || p.Publishing?
  }

  ghost predicate DueInv(threshold: nat, s: State) {
    && (s.published.Some? <==> s.expiresAt.Some?)
    && (s.published.Some? ==> s.published.value.expiresAt == s.expiresAt.value)
    && (s.phase.Settling? || s.phase.Sleeping? ==> s.expiresAt.Some? && s.failures == 0)
    && (Refreshing(s.phase) ==> NeedsRefresh(s.expiresAt, threshold, Secs(s.now)))
    && (s.phase.Sleeping? ==> NeedsRefresh(s.expiresAt, threshold, Secs(s.phase.until)))
  }

  lemma {:induction false} RunDue(threshold: nat, states: seq<State>, events: seq<Event>, i: nat)
    requires Run(threshold, states, events) && i < |states|
    ensures DueInv(threshold, states[i])
  {
    if i > 0 {
      RunDue(threshold, states, events, i - 1);
      var s := states[i - 1];
      assert Step(threshold, s, events[i - 1], states[i]);
    }
  }

  /** The loop sleeps until the threshold and 30 s before the expiry, and at least a second. */
  lemma SleepsUntilDue(threshold: nat, states: seq<State>, events: seq<Event>, i: nat)
    requires Run(threshold, states, events) && i < |events| && events[i].Settle?
    ensures states[i].expiresAt.Some? && states[i + 1].phase.Sleeping?
    ensures var due := states[i].expiresAt.value - threshold - 30 - states[i].now / 1000;
            states[i + 1].phase.until == states[i].now + 1_000 * if due > 1 then due else 1
  {
    RunDue(threshold, states, events, i);
    assert Step(threshold, states[i], events[i], states[i + 1]);
  }

  /** `expires_in` is an unsigned number read as a signed one. */
  lemma Casts(u: nat)
    requires u < 0x1_0000_0000_0000_0000
    ensures AsI64(u) == if u <= 9_223_372_036_854_775_807 then u else u - 18_446_744_073_709_551_616
  {
  }

  /** On a clock that does not go back, every decision after a wake-up, early or late,
      first or repeated, starts an acquisition; whatever lifetimes the server grants. */
  lemma EveryWakeUpAcquires(threshold: nat, states: seq<State>, events: seq<Event>, i: nat)
    requires Run(threshold, states, events) && i < |events| && events[i].Decide?
    ensures states[i + 1].phase == Acquiring(states[i].now)
  {
    RunDue(threshold, states, events, i);
    assert Step(threshold, states[i], events[i], states[i + 1]);
  }

  // ---------------------------------------------------------------------------
  // No reader holds an expired token
  // ---------------------------------------------------------------------------

  /** What one refresh may take from the moment it is due, in milliseconds. */
  function Budget(threshold: nat): nat {
    (threshold + 30) * 1000
  }

  /** Published tokens live longer than the threshold and the margin when the loop settles
      to sleep, and a due refresh has taken no longer than its budget so far. */
  ghost predicate OnTime(threshold: nat, s: State) {
    && (s.phase.Settling? && s.expiresAt.Some? ==>
          s.expiresAt.value - threshold - 30 > Secs(s.now))
    && (s.phase.Sleeping? ==> s.now <= s.phase.until + Budget(threshold))
    && (Refreshing(s.phase) && s.published.Some? ==> s.now <= s.episode + Budget(threshold))
  }

  /** The last millisecond of the second in which the refresh is due. */
  function DueBy(threshold: nat, s: State): int
    requires s.expiresAt.Some?
  {
    (s.expiresAt.value - threshold - CLOCK_DRIFT_MARGIN_SECS) * 1000 + 999
  }

  ghost predicate EpisodeInv(threshold: nat, s: State) {
    s.expiresAt.Some? ==>
      && (s.phase.Sleeping? ==> s.phase.until <= DueBy(threshold, s))
      && (Refreshing(s.phase) ==> s.episode <= DueBy(threshold, s))
  }

  lemma {:induction false} RunEpisode(threshold: nat, states: seq<State>, events: seq<Event>, i: nat)
    requires Run(threshold, states, events) && i < |states|
    requires forall k :: 0 <= k <= i ==> OnTime(threshold, states[k])
    ensures EpisodeInv(threshold, states[i])
  {
    if i > 0 {
      RunEpisode(threshold, states, events, i - 1);
      var s := states[i - 1];
      assert Step(threshold, s, events[i - 1], states[i]);
      assert OnTime(threshold, s);
      RunDue(threshold, states, events, i - 1);
    }
  }

  /** While refreshes stay within their budget, a reader's token is never past the second
      of its recorded expiry. */
  lemma NeverExpired(threshold: nat, states: seq<State>, events: seq<Event>, i: nat)
    requires Run(threshold, states, events) && i < |states|
    requires forall k :: 0 <= k <= i ==> OnTime(threshold, states[k])
    ensures states[i].published.Some? ==> Secs(states[i].now) <= states[i].published.value.expiresAt
  {
    RunDue(threshold, states, events, i);
    RunEpisode(threshold, states, events, i);
    assert OnTime(threshold, states[i]);
  }

  /** The whole second matters: a run that is always on time can serve a token 999 ms after
      the instant of its expiry. */
  lemma ExpiryIsExactToTheSecond() returns (states: seq<State>, events: seq<Event>)
    ensures Run(0, states, events)
    ensures forall k :: 0 <= k < |states| ==> OnTime(0, states[k])
    ensures var s := states[|events|]; s.published.Some? && s.now == 1000 * s.published.value.expiresAt + 999
  {
    var a := State(999, Deciding, 1000, None, None, 0, 999, None);
    var b := a.(phase := Acquiring(999));
    var c := a.(phase := Publishing(Token("t", 31)));
    var d := a.(phase := Settling, expiresAt := Some(31), published := Some(Token("t", 31)));
    var e := d.(phase := Sleeping(1999));
    var f := e.(now := 1999);
    var g := f.(phase := Deciding, episode := 1999);
    var h := g.(now := 31_999);
    states := [a, b, c, d, e, f, g, h];
    events := [Decide, Grant("t", 31), Publish, Settle, Tick(1000), Wake, Tick(30_000)];
    forall i | 0 <= i < |events| ensures Step(0, states[i], events[i], states[i + 1]) { }
  }

  // ---------------------------------------------------------------------------
  // How many failures the defaults absorb
  // ---------------------------------------------------------------------------

  /** The wait after the n-th consecutive failure, counting from zero. */
  function Wait(n: nat): nat {
    if INITIAL_BACKOFF_MS * Pow2(n) < MAX_BACKOFF_MS then INITIAL_BACKOFF_MS * Pow2(n) else MAX_BACKOFF_MS
  }

  function WaitSum(n: nat): nat {
    if n == 0 then 0 else WaitSum(n - 1) + Wait(n - 1)
  }

  /** The back-off is always the capped power of two for the failures so far. */
  lemma {:induction false} BackoffIsCappedPower(threshold: nat, states: seq<State>, events: seq<Event>, i: nat)
    requires Run(threshold, states, events) && i < |states|
    ensures states[i].backoff == Wait(states[i].failures)
    ensures var power := 1_000 * Pow2(states[i].failures);
            states[i].backoff == if power < 30_000 then power else 30_000
  {
    if i > 0 {
      BackoffIsCappedPower(threshold, states, events, i - 1);
      assert Step(threshold, states[i - 1], events[i - 1], states[i]);
      assert Wait(states[i - 1].failures + 1) == NextBackoff(Wait(states[i - 1].failures));
    }
  }

  /** Time passes only in calls, none longer than `call`, and in sleeps, none overslept. */
  ghost predicate Punctual(call: nat, s: State, e: Event, t: State) {
    e.Tick? && e.ms > 0 ==>
      match s.phase
      case Acquiring(since) => t.now <= since + call
      case BackingOff(until) => t.now <= until
      case Sleeping(until) => t.now <= until
      case _ => false
  }

  function Spent(call: nat, failures: nat): nat {
    failures * call + WaitSum(failures)
  }

  ghost predicate SpentInv(call: nat, s: State) {
    && (s.phase.Deciding? ==> s.now <= s.episode + Spent(call, s.failures))
    && (s.phase.Acquiring? ==> s.phase.since <= s.episode + Spent(call, s.failures) && s.now <= s.phase.since + call)
    && (s.phase.BackingOff? ==> s.now <= s.phase.until <= s.episode + Spent(call, s.failures))
    && (s.phase.Publishing? ==> s.now <= s.episode + Spent(call, s.failures) + call)
    && (s.phase.Sleeping? ==> s.now <= s.phase.until)
  }

  lemma {:induction false} RunSpent(threshold: nat, call: nat, states: seq<State>, events: seq<Event>, i: nat)
    requires Run(threshold, states, events) && i < |states|
    requires forall k :: 0 <= k < |events| ==> Punctual(call, states[k], events[k], states[k + 1])
    ensures SpentInv(call, states[i])
  {
    if i > 0 {
      RunSpent(threshold, call, states, events, i - 1);
      RunDue(threshold, states, events, i - 1);
      BackoffIsCappedPower(threshold, states, events, i - 1);
      var s := states[i - 1];
      assert Step(threshold, s, events[i - 1], states[i]);
      assert Punctual(call, s, events[i - 1], states[i]);
      SpentGrows(call, s.failures);
    }
  }

  lemma SpentGrows(call: nat, n: nat)
    ensures Spent(call, n + 1) == Spent(call, n) + call + Wait(n)
  {
    assert (n + 1) * call == n * call + call;
  }

  lemma {:induction false} SpentIsMonotone(call: nat, m: nat, n: nat)
    requires m <= n
    ensures Spent(call, m) <= Spent(call, n)
  {
    if m < n {
      SpentIsMonotone(call, m, n - 1);
      SpentGrows(call, n - 1);
    }
  }

  lemma {:induction false} LongWait(n: nat)
    requires n >= 5
    ensures Pow2(n) >= 32 && Wait(n) == MAX_BACKOFF_MS
  {
    if n > 5 {
      LongWait(n - 1);
    } else {
      assert Pow2(3) == 8 && Pow2(5) == 4 * Pow2(3);
    }
  }

  /** A run with the default threshold in which no call exceeds the default time limit, no
      sleep is overslept, at most `most` attempts in a row fail, and tokens live longer than
      the threshold and the margin. */
  ghost predicate DefaultRun(states: seq<State>, events: seq<Event>, most: nat) {
    && Run(300, states, events)
    && (forall k :: 0 <= k < |events| ==> Punctual(10_000, states[k], events[k], states[k + 1]))
    && forall k :: 0 <= k < |states| ==> ShortEpisode(states[k], most)
  }

  predicate ShortEpisode(s: State, most: nat) {
    s.failures <= most && (s.phase.Settling? && s.expiresAt.Some? ==> s.expiresAt.value - 330 > Secs(s.now))
  }

  /** With the defaults readers never hold an expired token as long as no more than ten
      attempts in a row fail. */
  lemma DefaultsAbsorbTenFailures(states: seq<State>, events: seq<Event>, i: nat)
    requires DefaultRun(states, events, 10) && i < |states|
    ensures states[i].published.Some? ==> Secs(states[i].now) <= states[i].published.value.expiresAt
  {
    forall k | 0 <= k <= i ensures OnTime(DEFAULT_REFRESH_THRESHOLD_SECS, states[k]) {
      assert ShortEpisode(states[k], 10);
      RunSpent(DEFAULT_REFRESH_THRESHOLD_SECS, DEFAULT_HTTP_TIMEOUT_MS, states, events, k);
      SpentIsMonotone(DEFAULT_HTTP_TIMEOUT_MS, states[k].failures, 10);
    }
    NeverExpired(DEFAULT_REFRESH_THRESHOLD_SECS, states, events, i);
  }

  lemma Extend(states: seq<State>, events: seq<Event>, most: nat, e: Event, t: State)
    returns (states': seq<State>, events': seq<Event>)
    requires DefaultRun(states, events, most)
    requires Step(DEFAULT_REFRESH_THRESHOLD_SECS, states[|events|], e, t)
    requires Punctual(DEFAULT_HTTP_TIMEOUT_MS, states[|events|], e, t) && ShortEpisode(t, most)
    ensures states' == states + [t] && events' == events + [e] && DefaultRun(states', events', most)
  {
    states', events' := states + [t], events + [e];
    forall k | 0 <= k < |events'|
      ensures Step(DEFAULT_REFRESH_THRESHOLD_SECS, states'[k], events'[k], states'[k + 1])
      ensures Punctual(DEFAULT_HTTP_TIMEOUT_MS, states'[k], events'[k], states'[k + 1])
    {
      if k < |events| {
        assert Step(DEFAULT_REFRESH_THRESHOLD_SECS, states[k], events[k], states[k + 1]);
        assert Punctual(DEFAULT_HTTP_TIMEOUT_MS, states[k], events[k], states[k + 1]);
      }
    }
    forall k | 0 <= k < |states'| ensures ShortEpisode(states'[k], most) {
      if k < |states| { assert ShortEpisode(states[k], most); }
    }
  }

  /** A reader holds a token that expires at second 1000; its refresh is due at second 670
      and has failed `n` times, each attempt taking the whole time limit. */
  function FailedTimes(n: nat): State {
    State(670_000 + Spent(DEFAULT_HTTP_TIMEOUT_MS, n), Deciding, Wait(n), Some(1000), Some(Token("t", 1000)),
          n, 670_000, Some(true))
  }

  lemma FirstRefreshDue(most: nat) returns (states: seq<State>, events: seq<Event>)
    ensures DefaultRun(states, events, most) && states[|events|] == FailedTimes(0)
  {
    var a := State(0, Deciding, 1000, None, None, 0, 0, None);
    var b := a.(phase := Acquiring(0));
    var c := a.(phase := Publishing(Token("t", 1000)));
    var d := a.(phase := Settling, expiresAt := Some(1000), published := Some(Token("t", 1000)));
    var e := d.(handedOut := Some(true));
    var f := e.(phase := Sleeping(670_000));
    var g := f.(now := 670_000);
    var h := g.(phase := Deciding, episode := 670_000);
    states := [a, b, c, d, e, f, g, h];
    events := [Decide, Grant("t", 1000), Publish, HandOut, Settle, Tick(670_000), Wake];
    forall n | 0 <= n < |events| ensures Step(300, states[n], events[n], states[n + 1]) { }
    assert Wait(0) == 1000;
  }

  lemma OneMoreFailure(states: seq<State>, events: seq<Event>, most: nat, n: nat)
    returns (states': seq<State>, events': seq<Event>)
    requires DefaultRun(states, events, most) && n < most && states[|events|] == FailedTimes(n)
    ensures DefaultRun(states', events', most) && states'[|events'|] == FailedTimes(n + 1)
  {
    var s := FailedTimes(n);
    SpentGrows(DEFAULT_HTTP_TIMEOUT_MS, n);
    assert NextBackoff(Wait(n)) == Wait(n + 1);
    var a := s.(phase := Acquiring(s.now));
    states', events' := Extend(states, events, most, Decide, a);
    var b := a.(now := s.now + DEFAULT_HTTP_TIMEOUT_MS);
    states', events' := Extend(states', events', most, Tick(DEFAULT_HTTP_TIMEOUT_MS), b);
    var c := b.(phase := BackingOff(b.now + b.backoff), backoff := Wait(n + 1), failures := n + 1);
    states', events' := Extend(states', events', most, Fail, c);
    var d := c.(now := b.now + b.backoff);
    states', events' := Extend(states', events', most, Tick(b.backoff), d);
    states', events' := Extend(states', events', most, Wake, FailedTimes(n + 1));
  }

  lemma {:induction false} FailingRun(most: nat, n: nat) returns (states: seq<State>, events: seq<Event>)
    requires n <= most
    ensures DefaultRun(states, events, most) && states[|events|] == FailedTimes(n)
  {
    if n == 0 {
      states, events := FirstRefreshDue(most);
    } else {
      states, events := FailingRun(most, n - 1);
      states, events := OneMoreFailure(states, events, most, n - 1);
    }
  }

  /** Ten is exact: with eleven failures in a row there is a run in which a reader holds a
      token a whole second past its expiry. */
  lemma ElevenFailuresAreTooMany() returns (states: seq<State>, events: seq<Event>)
    ensures DefaultRun(states, events, 11)
    ensures var s := states[|events|];
            HasReaders(s) && s.published.Some? && Secs(s.now) > s.published.value.expiresAt
  {
    states, events := FailingRun(11, 11);
    var s := FailedTimes(11);
    assert s.now == 991_000;
    var a := s.(phase := Acquiring(s.now));
    states, events := Extend(states, events, 11, Decide, a);
    states, events := Extend(states, events, 11, Tick(DEFAULT_HTTP_TIMEOUT_MS), a.(now := 1_001_000));
  }

  // ---------------------------------------------------------------------------
  // Empty tokens
  // ---------------------------------------------------------------------------

  ghost predicate ReadersSeeText(states: seq<State>) {
    forall i :: 0 <= i < |states| && HasReaders(states[i]) ==> SeesText(states[i])
  }

  predicate SeesText(s: State) {
    s.published.Some? && s.published.value.text != ""
  }

  /** The token granted at `g` is the one published at `p`. */
  predicate GrantIsPublishedAt(events: seq<Event>, g: nat, p: nat) {
    && g < p < |events| && events[g].Grant? && events[p].Publish?
    && forall k :: g < k < p ==> events[k].Tick? || events[k].HandOut?
  }

  /** No token that reaches the channel after the hand-out was granted empty. */
  ghost predicate LaterGrantsHaveText(states: seq<State>, events: seq<Event>)
    requires |states| == |events| + 1
  {
    forall g: nat, p: nat :: GrantIsPublishedAt(events, g, p) && HasReaders(states[p]) ==> events[g].text != ""
  }

  lemma {:induction false} PublishingSince(threshold: nat, states: seq<State>, events: seq<Event>, i: nat) returns (g: nat)
    requires Run(threshold, states, events) && i < |states| && states[i].phase.Publishing?
    ensures g < i && events[g].Grant? && states[i].phase.token.text == events[g].text
    ensures forall k :: g < k < i ==> events[k].Tick? || events[k].HandOut?
  {
    assert Step(threshold, states[i - 1], events[i - 1], states[i]);
    if events[i - 1].Grant? {
      g := i - 1;
    } else {
      g := PublishingSince(threshold, states, events, i - 1);
    }
  }

  lemma PublishedText(threshold: nat, states: seq<State>, events: seq<Event>, p: nat) returns (g: nat)
    requires Run(threshold, states, events) && p < |events| && events[p].Publish?
    ensures GrantIsPublishedAt(events, g, p) && states[p + 1].published.Some?
    ensures states[p + 1].published.value.text == events[g].text && states[p + 1].handedOut == states[p].handedOut
  {
    assert Step(threshold, states[p], events[p], states[p + 1]);
    g := PublishingSince(threshold, states, events, p);
  }

  lemma {:induction false} TextUpTo(threshold: nat, states: seq<State>, events: seq<Event>, i: nat)
    requires Run(threshold, states, events) && i < |states| && HasReaders(states[i])
    requires LaterGrantsHaveText(states, events)
    ensures SeesText(states[i])
  {
    assert Step(threshold, states[i - 1], events[i - 1], states[i]);
    if events[i - 1].Publish? {
      var g := PublishedText(threshold, states, events, i - 1);
    } else if !events[i - 1].HandOut? {
      TextUpTo(threshold, states, events, i - 1);
    }
  }

  /** `spawn_token_manager` looks at the token once: an empty one leaves no readers.  After
      a successful hand-out readers see a non-empty token throughout exactly when no later
      grant is empty. */
  lemma NonEmptyIffLaterGrantsAre(threshold: nat, states: seq<State>, events: seq<Event>)
    requires Run(threshold, states, events)
    ensures ReadersSeeText(states) <==> LaterGrantsHaveText(states, events)
    ensures forall i :: 0 <= i < |events| && events[i].HandOut? ==> HasReaders(states[i + 1]) == SeesText(states[i])
  {
    forall i | 0 <= i < |events| && events[i].HandOut? ensures HasReaders(states[i + 1]) == SeesText(states[i]) {
      assert Step(threshold, states[i], events[i], states[i + 1]);
    }
    if LaterGrantsHaveText(states, events) {
      forall i | 0 <= i < |states| && HasReaders(states[i]) ensures SeesText(states[i]) {
        TextUpTo(threshold, states, events, i);
      }
    } else {
      var g: nat, p: nat :| GrantIsPublishedAt(events, g, p) && HasReaders(states[p]) && events[g].text == "";
      var h := PublishedText(threshold, states, events, p);
      assert HasReaders(states[p + 1]) && !SeesText(states[p + 1]);
    }
  }

  /** The documented promise fails on a second grant: readers were given a token with text
      and now see an empty one. */
  lemma EmptySecondGrant() returns (states: seq<State>, events: seq<Event>)
    ensures Run(0, states, events)
    ensures HasReaders(states[|events|]) && states[|events|].published == Some(Token("", 170))
    ensures exists i :: 0 <= i < |events| && events[i].HandOut? && SeesText(states[i])
  {
    var a := State(0, Deciding, 1000, None, None, 0, 0, None);
    var b := a.(phase := Acquiring(0));
    var c := a.(phase := Publishing(Token("t", 100)));
    var d := a.(phase := Settling, expiresAt := Some(100), published := Some(Token("t", 100)));
    var e := d.(handedOut := Some(true));
    var f := e.(phase := Sleeping(70_000));
    var g := f.(now := 70_000);
    var h := g.(phase := Deciding, episode := 70_000);
    var i := h.(phase := Acquiring(70_000));
    var j := h.(phase := Publishing(Token("", 170)));
    var k := h.(phase := Settling, expiresAt := Some(170), published := Some(Token("", 170)));
    states := [a, b, c, d, e, f, g, h, i, j, k];
    events := [Decide, Grant("t", 100), Publish, HandOut, Settle, Tick(70_000), Wake, Decide, Grant("", 100), Publish];
    forall n | 0 <= n < |events| ensures Step(0, states[n], events[n], states[n + 1]) { }
    assert events[3].HandOut? && SeesText(states[3]);
  }
}
