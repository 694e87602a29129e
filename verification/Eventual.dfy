/**
 The retry loop `assert_eventually` (`eventual.rs`).  Times are milliseconds since the
 loop started.
 */
module Eventual {
  import opened Prelude

  datatype Category = MetricsScrape | LogAggregation | ReplicaSync | K8sResourceUpdate

  function Timeout(c: Category): (ms: nat)
    ensures 10_000 <= ms <= 60_000
  {
    match c
    case MetricsScrape => 30_000
    case LogAggregation => 45_000
    case ReplicaSync => 10_000
    case K8sResourceUpdate => 60_000
  }

  const INITIAL_DELAY: nat := 500

  /** What the loop does not control: how long the k-th check takes, how much longer than
      asked the k-th sleep lasts, and the answer of the k-th check. */
  datatype Env = Env(check: nat -> nat, oversleep: nat -> nat, answer: nat -> bool)

  /** Start of a check and the delay in force when it starts. */
  datatype Attempt = Attempt(begin: nat, delay: nat)

  function AttemptAt(timeout: nat, env: Env, k: nat): Attempt {
    if k == 0 then Attempt(0, INITIAL_DELAY)
    else
      var a := AttemptAt(timeout, env, k - 1);
      var elapsed := a.begin + env.check(k - 1);
      var remaining := if elapsed < timeout then timeout - elapsed else 0;
      Attempt(elapsed + a.delay + env.oversleep(k - 1),
              if 2 * a.delay > remaining then remaining else 2 * a.delay)
  }

  function Delay(timeout: nat, env: Env, k: nat): nat {
    AttemptAt(timeout, env, k).delay
  }

  /** The elapsed time read after the k-th check. */
  function Elapsed(timeout: nat, env: Env, k: nat): nat {
    AttemptAt(timeout, env, k).begin + env.check(k)
  }

  /** The loop is past its k-th check: no check so far succeeded or came after the timeout. */
  ghost predicate Retries(timeout: nat, env: Env, k: nat) {
    forall j :: 0 <= j < k ==> !env.answer(j) && Elapsed(timeout, env, j) < timeout
  }

  /** The loop ends with its k-th check: successfully if the condition is true then, and
      otherwise because the timeout has passed. */
  ghost predicate Outcome(timeout: nat, env: Env, ok: bool, k: nat) {
    Retries(timeout, env, k) && ok == env.answer(k) && (!ok ==> Elapsed(timeout, env, k) >= timeout)
  }

  method AssertEventually(category: Category, env: Env) returns (ok: bool, k: nat)
    ensures Outcome(Timeout(category), env, ok, k)
    ensures category.MetricsScrape? ==> Outcome(30_000, env, ok, k)
    ensures category.LogAggregation? ==> Outcome(45_000, env, ok, k)
    ensures category.ReplicaSync? ==> Outcome(10_000, env, ok, k)
    ensures category.K8sResourceUpdate? ==> Outcome(60_000, env, ok, k)
  {
    var timeout := Timeout(category);
    var delay: nat, now: nat := INITIAL_DELAY, 0;
    k := 0;
    while true
      invariant Retries(timeout, env, k)
      invariant AttemptAt(timeout, env, k) == Attempt(now, delay)
      invariant delay > 0
      decreases if now < timeout then timeout - now else 0
    {
      if env.answer(k) {
        return true, k;
      }
      var elapsed := now + env.check(k);
      if elapsed >= timeout {
        return false, k;
      }
      now := elapsed + delay + env.oversleep(k);
      delay := delay * 2;
      var remaining := timeout - elapsed;
      if delay > remaining {
        delay := remaining;
      }
      k := k + 1;
    }
  }

  // ---------------------------------------------------------------------------
  // How many checks
  // ---------------------------------------------------------------------------

  lemma {:induction false} DelayIsPositive(timeout: nat, env: Env, k: nat)
    requires Retries(timeout, env, k)
    ensures 0 < Delay(timeout, env, k)
    ensures Delay(timeout, env, k) <= AttemptAt(timeout, env, k).begin + INITIAL_DELAY
  {
    if k > 0 {
      DelayIsPositive(timeout, env, k - 1);
      assert Elapsed(timeout, env, k - 1) < timeout;
    }
  }

  /** The doubling of the k-th delay is cut down to the remaining time. */
  predicate CappedAt(timeout: nat, env: Env, k: nat) {
    Elapsed(timeout, env, k) < timeout && 2 * Delay(timeout, env, k) > timeout - Elapsed(timeout, env, k)
  }

  /** Whatever the environment does, at most two checks follow the first cap. */
  lemma CapLeavesTwoChecks(timeout: nat, env: Env, k: nat)
    requires CappedAt(timeout, env, k)
    ensures Elapsed(timeout, env, k + 2) >= timeout
  {
    var a := AttemptAt(timeout, env, k);
    var b := AttemptAt(timeout, env, k + 1);
    assert b.delay == timeout - Elapsed(timeout, env, k);
    assert b.begin >= Elapsed(timeout, env, k);
    assert AttemptAt(timeout, env, k + 2).begin >= b.begin + b.delay;
  }

  lemma {:induction false} UncappedDoubles(timeout: nat, env: Env, n: nat)
    requires Retries(timeout, env, n) && forall j :: 0 <= j < n ==> !CappedAt(timeout, env, j)
    ensures Delay(timeout, env, n) == INITIAL_DELAY * Pow2(n)
    ensures n > 0 ==> INITIAL_DELAY * Pow2(n) <= timeout
  {
    if n > 0 {
      UncappedDoubles(timeout, env, n - 1);
      assert Elapsed(timeout, env, n - 1) < timeout;
      assert !CappedAt(timeout, env, n - 1);
    }
  }

  /** The number of checks is logarithmic in the timeout: at most n + 2 once n doublings
      of the first delay exceed it. */
  lemma ChecksAreLogarithmic(timeout: nat, env: Env, n: nat, k: nat)
    requires n > 0 && INITIAL_DELAY * Pow2(n) > timeout
    requires Retries(timeout, env, k)
    ensures k <= n + 1
  {
    if j :| 0 <= j < n && CappedAt(timeout, env, j) {
      CapLeavesTwoChecks(timeout, env, j);
    } else if k >= n {
      UncappedDoubles(timeout, env, n);
    }
  }

  /** No category checks its condition more than nine times. */
  lemma NineChecksAtMost(c: Category, env: Env, k: nat)
    requires Retries(Timeout(c), env, k)
    ensures k + 1 <= 9
  {
    assert Pow2(7) == 128 by { assert Pow2(3) == 8; assert Pow2(5) == 32; }
    ChecksAreLogarithmic(Timeout(c), env, 7, k);
  }

  // ---------------------------------------------------------------------------
  // How late a failure comes
  // ---------------------------------------------------------------------------

  /** Time the k-th round spends on the check after its sleep and on oversleeping. */
  function Overhead(env: Env, k: nat): nat {
    env.oversleep(k) + env.check(k + 1)
  }

  /** A failure at the first check comes when that check ends.  Any later one comes before
      one and a half times the timeout plus half the first delay, not counting the overhead
      of the last two rounds; the timeout counts as no less than the first delay. */
  lemma FailureTime(timeout: nat, env: Env, k: nat)
    requires Retries(timeout, env, k) && Elapsed(timeout, env, k) >= timeout
    ensures k == 0 ==> Elapsed(timeout, env, k) == env.check(0)
    ensures k > 0 ==>
              var overhead := Overhead(env, k - 1) + if k > 1 then Overhead(env, k - 2) else 0;
              var least := if k == 1 && timeout < INITIAL_DELAY then INITIAL_DELAY else timeout;
              2 * Elapsed(timeout, env, k) < 3 * least + INITIAL_DELAY + 2 * overhead
  {
    assert k > 0 ==> Elapsed(timeout, env, k - 1) < timeout;
    if k == 0 {
    } else if k == 1 {
      assert AttemptAt(timeout, env, 0) == Attempt(0, INITIAL_DELAY);
      assert Elapsed(timeout, env, 1) == Elapsed(timeout, env, 0) + INITIAL_DELAY + Overhead(env, 0);
    } else {
      DelayIsPositive(timeout, env, k - 2);
      assert Elapsed(timeout, env, k - 2) < timeout;
      var a, b := AttemptAt(timeout, env, k - 2), AttemptAt(timeout, env, k - 1);
      assert b.delay <= timeout - Elapsed(timeout, env, k - 2);
      assert Elapsed(timeout, env, k - 1) == Elapsed(timeout, env, k - 2) + a.delay + Overhead(env, k - 2);
      assert Elapsed(timeout, env, k) == Elapsed(timeout, env, k - 1) + b.delay + Overhead(env, k - 1);
    }
  }

  /** With exact sleeps and instant checks a failure comes in [timeout, 1.5 timeout + 250 ms). */
  lemma ExactFailureTime(c: Category, env: Env, k: nat)
    requires forall j :: env.check(j) == 0 && env.oversleep(j) == 0
    requires Retries(Timeout(c), env, k) && Elapsed(Timeout(c), env, k) >= Timeout(c)
    ensures Timeout(c) <= Elapsed(Timeout(c), env, k)
    ensures 2 * Elapsed(Timeout(c), env, k) < 3 * Timeout(c) + INITIAL_DELAY
    ensures Elapsed(Timeout(c), env, k) < 2 * Timeout(c)
  {
    FailureTime(Timeout(c), env, k);
  }

  /** The loop has checked `checks` times and gives up `at` milliseconds after its start. */
  ghost predicate GivesUp(c: Category, env: Env, checks: nat, at: nat) {
    checks > 0 && Outcome(Timeout(c), env, false, checks - 1) && Elapsed(Timeout(c), env, checks - 1) == at
  }

  ghost predicate ExactAndFalse(env: Env) {
    forall j :: env.check(j) == 0 && env.oversleep(j) == 0 && !env.answer(j)
  }

  /** With exact sleeps, instant checks and a condition that is never true: the schedule of
      every category, to the millisecond. */
  lemma FailureSchedule(c: Category, env: Env)
    requires ExactAndFalse(env)
    ensures match c
            case MetricsScrape => GivesUp(c, env, 7, 31_500)
            case LogAggregation => GivesUp(c, env, 8, 61_000)
            case ReplicaSync => GivesUp(c, env, 6, 14_000)
            case K8sResourceUpdate => GivesUp(c, env, 8, 63_500)
  {
    var three := FirstAttempts(Timeout(c), env);
    var a := NextAttempt(Timeout(c), env, three);
    if c == ReplicaSync {
      LastAttempt(c, env, a);
    } else {
      var b := NextAttempt(Timeout(c), env, a);
      var d := NextAttempt(Timeout(c), env, b);
      if c == MetricsScrape { LastAttempt(c, env, b); } else { LastAttempt(c, env, d); }
    }
  }

  lemma NextAttempt(timeout: nat, env: Env, k: nat) returns (next: nat)
    requires ExactAndFalse(env)
    ensures next == k + 1
    ensures var a := AttemptAt(timeout, env, k);
            var remaining := if a.begin < timeout then timeout - a.begin else 0;
            AttemptAt(timeout, env, next) ==
            Attempt(a.begin + a.delay, if 2 * a.delay > remaining then remaining else 2 * a.delay)
  {
    next := k + 1;
  }

  lemma FirstAttempts(timeout: nat, env: Env) returns (three: nat)
    requires ExactAndFalse(env) && timeout >= 10_000
    ensures three == 3 && AttemptAt(timeout, env, three) == Attempt(3_500, 4_000)
  {
    var zero := 0;
    assert AttemptAt(timeout, env, zero) == Attempt(0, 500);
    var one := NextAttempt(timeout, env, zero);
    var two := NextAttempt(timeout, env, one);
    three := NextAttempt(timeout, env, two);
  }

  /** The next check after the k-th is the first one past the timeout. */
  lemma LastAttempt(c: Category, env: Env, k: nat)
    requires ExactAndFalse(env)
    requires var a := AttemptAt(Timeout(c), env, k); a.begin < Timeout(c) <= a.begin + a.delay
    ensures var a := AttemptAt(Timeout(c), env, k); GivesUp(c, env, k + 2, a.begin + a.delay)
  {
    forall j | 0 <= j <= k ensures Elapsed(Timeout(c), env, j) < Timeout(c) {
      BeginsAscend(Timeout(c), env, j, k);
    }
  }

  // ---------------------------------------------------------------------------
  // A condition that becomes true in time
  // ---------------------------------------------------------------------------

  /** When the condition holds, and the moment at which the k-th check looks at it. */
  datatype Sampling = Sampling(holds: nat -> bool, moment: nat -> nat)

  predicate InCheck(timeout: nat, env: Env, k: nat, moment: nat) {
    AttemptAt(timeout, env, k).begin <= moment <= Elapsed(timeout, env, k)
  }

  /** The condition holds from `since` on, and every check answers with what it finds at
      some moment while it runs. */
  ghost predicate Samples(timeout: nat, env: Env, since: nat, s: Sampling) {
    && (forall t: nat :: since <= t ==> s.holds(t))
    && (forall k: nat :: InCheck(timeout, env, k, s.moment(k)))
    && forall k: nat :: env.answer(k) == s.holds(s.moment(k))
  }

  ghost predicate SameTiming(a: Env, b: Env) {
    forall k: nat :: a.check(k) == b.check(k) && a.oversleep(k) == b.oversleep(k)
  }

  lemma {:induction false} TimingDecides(timeout: nat, a: Env, b: Env, k: nat)
    requires SameTiming(a, b)
    ensures AttemptAt(timeout, a, k) == AttemptAt(timeout, b, k)
    ensures Elapsed(timeout, a, k) == Elapsed(timeout, b, k)
  {
    if k > 0 { TimingDecides(timeout, a, b, k - 1); }
  }

  lemma {:induction false} BeginsAscend(timeout: nat, env: Env, j: nat, k: nat)
    requires j <= k
    ensures AttemptAt(timeout, env, j).begin <= AttemptAt(timeout, env, k).begin
  {
    if j < k { BeginsAscend(timeout, env, j, k - 1); }
  }

  /** A loop ends in one way. */
  lemma OutcomeIsUnique(timeout: nat, env: Env, ok: bool, k: nat, ok': bool, k': nat)
    requires Outcome(timeout, env, ok, k) && Outcome(timeout, env, ok', k')
    ensures ok == ok' && k == k'
  {
    assert k < k' ==> !env.answer(k) && Elapsed(timeout, env, k) < timeout;
    assert k' < k ==> !env.answer(k') && Elapsed(timeout, env, k') < timeout;
  }

  /** The k-th check is the first after which the timeout has passed. */
  ghost predicate IsLastCheck(timeout: nat, env: Env, k: nat) {
    && Elapsed(timeout, env, k) >= timeout
    && forall j :: 0 <= j < k ==> Elapsed(timeout, env, j) < timeout
  }

  /** With the timing of `env` and the answers of `run`, the loop fails at its k-th check
      although the condition holds from `since` on. */
  ghost predicate Misses(timeout: nat, env: Env, since: nat, k: nat, run: Env, s: Sampling) {
    SameTiming(env, run) && Samples(timeout, run, since, s) && Outcome(timeout, run, false, k)
  }

  ghost predicate CanMiss(timeout: nat, env: Env, since: nat, k: nat) {
    exists run, s :: Misses(timeout, env, since, k, run, s)
  }

  /** A condition that holds from `since` on and stays true can be missed exactly when the
      last check begins before `since`: it depends on the timing alone. */
  lemma MissedIffLastCheckBeginsEarlier(timeout: nat, env: Env, since: nat, k: nat)
    requires IsLastCheck(timeout, env, k)
    ensures CanMiss(timeout, env, since, k) <==> AttemptAt(timeout, env, k).begin < since
  {
    if CanMiss(timeout, env, since, k) {
      var run, s :| Misses(timeout, env, since, k, run, s);
      TimingDecides(timeout, env, run, k);
      assert InCheck(timeout, run, k, s.moment(k));
      assert !run.answer(k) && s.moment(k) < since;
    }
    if AttemptAt(timeout, env, k).begin < since {
      var run, s := EarlyLooks(timeout, env, since);
      EarlyLooksMiss(timeout, env, since, k, run, s);
    }
  }

  /** Every check looks at once, and the condition holds from `since` on only. */
  lemma EarlyLooks(timeout: nat, env: Env, since: nat) returns (run: Env, s: Sampling)
    ensures SameTiming(env, run)
    ensures forall t: nat :: s.holds(t) <==> t >= since
    ensures forall j: nat :: s.moment(j) == AttemptAt(timeout, env, j).begin
    ensures forall j: nat :: run.answer(j) <==> AttemptAt(timeout, env, j).begin >= since
  {
    run := Env(env.check, env.oversleep, (j: nat) => AttemptAt(timeout, env, j).begin >= since);
    s := Sampling(t => t >= since, (j: nat) => AttemptAt(timeout, env, j).begin);
  }

  lemma EarlyLooksMiss(timeout: nat, env: Env, since: nat, k: nat, run: Env, s: Sampling)
    requires IsLastCheck(timeout, env, k) && AttemptAt(timeout, env, k).begin < since
    requires SameTiming(env, run)
    requires forall t: nat :: s.holds(t) <==> t >= since
    requires forall j: nat :: s.moment(j) == AttemptAt(timeout, env, j).begin
    requires forall j: nat :: run.answer(j) <==> AttemptAt(timeout, env, j).begin >= since
    ensures Misses(timeout, env, since, k, run, s)
  {
    forall j: nat
      ensures InCheck(timeout, run, j, s.moment(j))
      ensures Elapsed(timeout, run, j) == Elapsed(timeout, env, j)
    {
      TimingDecides(timeout, env, run, j);
    }
    forall j | 0 <= j <= k ensures !run.answer(j) {
      BeginsAscend(timeout, env, j, k);
    }
  }

  /** With instant checks a condition that is true by the timeout and stays true is always
      reported: a check that ends at or after the timeout also begins there. */
  lemma InstantChecksMissNothing(timeout: nat, env: Env, since: nat, k: nat)
    requires IsLastCheck(timeout, env, k) && env.check(k) == 0 && since <= timeout
    ensures !CanMiss(timeout, env, since, k)
  {
    MissedIffLastCheckBeginsEarlier(timeout, env, since, k);
  }

  /** A first check as long as the timeout misses a condition true from 1 ms on. */
  lemma SlowCheckMisses(c: Category) returns (env: Env, run: Env, s: Sampling)
    ensures Misses(Timeout(c), env, 1, 0, run, s)
  {
    env := Env(k => Timeout(c), k => 0, k => false);
    run, s := EarlyLooks(Timeout(c), env, 1);
    EarlyLooksMiss(Timeout(c), env, 1, 0, run, s);
  }
}
