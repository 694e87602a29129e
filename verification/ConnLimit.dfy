/**
 The connection cap of the accept loop and the rate limiter of its rejection log
 (`main.rs`).  Both are stated over every interleaving of the accepting thread, the
 handler threads and any number of callers of the limiter.
 */
module ConnLimit {

  const MAX_CONCURRENT_CONNECTIONS: nat := 32

  const REJECT_LOG_DEDUP_MS: int := 1000

  /** An atomic integer with the operations the two protocols use. */
  class Atomic {
    var value: int

    constructor (initial: int)
      ensures value == initial
    {
      value := initial;
    }

    method FetchAdd(delta: int) returns (previous: int)
      modifies this
      ensures previous == old(value) && value == old(value) + delta
    {
      previous := value;
      value := value + delta;
    }

    method CompareExchange(expected: int, desired: int) returns (swapped: bool)
      modifies this
      ensures swapped == (old(value) == expected)
      ensures value == Exchanged(old(value), expected, desired)
    {
      swapped := value == expected;
      if swapped {
        value := desired;
      }
    }
  }

  function Exchanged(value: int, expected: int, desired: int): int {
    if value == expected then desired else value
  }

  /** The accept loop's claim: count the connection, and take it back when over the cap. */
  method TryClaim(counter: Atomic) returns (accepted: bool)
    modifies counter
    ensures accepted <==> old(counter.value) < 32
    ensures counter.value == old(counter.value) + if accepted then 1 else 0
  {
    var current := counter.FetchAdd(1);
    if current >= MAX_CONCURRENT_CONNECTIONS {
      var _ := counter.FetchAdd(-1);
      return false;
    }
    accepted := true;
  }

  predicate Admits(previous: int) {
    previous < MAX_CONCURRENT_CONNECTIONS
  }

  /** One call of `maybe_log_cap_reject` that nobody interrupts. */
  method MaybeLogCapReject(last: Atomic, now: int) returns (logged: bool)
    modifies last
    ensures logged <==> now - old(last.value) >= 1000
    ensures last.value == if logged then now else old(last.value)
  {
    var seen := last.value;
    if now - seen < REJECT_LOG_DEDUP_MS {
      return false;
    }
    logged := last.CompareExchange(seen, now);
  }

  // ---------------------------------------------------------------------------
  // Connections
  // ---------------------------------------------------------------------------

  /** What the accepting thread is doing: between `fetch_add` and its consequence it
      remembers the value it saw. */
  datatype Accepting = Idle | Claimed(previous: int)

  /** `live` are the handler threads that have not dropped their guard. */
  datatype Conns = Conns(counter: int, live: set<nat>, accepting: Accepting)

  datatype ConnEvent = Claim | Reject | Spawn(handler: nat) | Finish(handler: nat)

  ghost predicate ConnStep(s: Conns, e: ConnEvent, t: Conns) {
    match e
    case Claim => s.accepting.Idle? && t == s.(counter := s.counter + 1, accepting := Claimed(s.counter))
    case Reject =>
      s.accepting.Claimed? && !Admits(s.accepting.previous) && t == s.(counter := s.counter - 1, accepting := Idle)
    case Spawn(h) =>
      s.accepting.Claimed? && Admits(s.accepting.previous) && h !in s.live
      && t == s.(live := s.live + {h}, accepting := Idle)
    case Finish(h) => h in s.live && t == s.(counter := s.counter - 1, live := s.live - {h})
  }

  ghost predicate ConnRun(states: seq<Conns>, events: seq<ConnEvent>) {
    && |states| == |events| + 1
    && states[0] == Conns(0, {}, Idle)
    && forall i :: 0 <= i < |events| ==> ConnStep(states[i], events[i], states[i + 1])
  }

  ghost predicate ConnInv(s: Conns) {
    && s.counter == |s.live| + (if s.accepting.Claimed? then 1 else 0)
    && |s.live| <= 32
    && (s.accepting.Claimed? ==> s.accepting.previous >= |s.live|)
  }

  /** The counter is exact in every reachable state, and at most 32 handlers are live. */
  lemma {:induction false} CounterIsExact(states: seq<Conns>, events: seq<ConnEvent>, i: nat)
    requires ConnRun(states, events) && i < |states|
    ensures ConnInv(states[i])
  {
    if i > 0 {
      CounterIsExact(states, events, i - 1);
      assert ConnStep(states[i - 1], events[i - 1], states[i]);
      match events[i - 1] {
        case Spawn(h) =>
          assert |states[i].live| == |states[i - 1].live| + 1;
        case Finish(h) =>
          assert states[i - 1].live == states[i].live + {h};
        case _ =>
      }
    }
  }

  /** A connection is rejected only if all 32 handlers were live when it was counted, and
      accepted only if fewer were: the claim just before the verdict decides it. */
  lemma {:induction false} VerdictIsOfTheClaim(states: seq<Conns>, events: seq<ConnEvent>, i: nat)
    returns (claim: nat)
    requires ConnRun(states, events) && i < |events| && (events[i].Reject? || events[i].Spawn?)
    ensures claim < i && events[claim] == Claim
    ensures forall j :: claim < j < i ==> events[j].Finish?
    ensures events[i].Reject? <==> |states[claim].live| == 32
  {
    assert ConnStep(states[i], events[i], states[i + 1]);
    claim := PendingClaim(states, events, i);
    CounterIsExact(states, events, claim);
    assert ConnStep(states[claim], events[claim], states[claim + 1]);
  }

  lemma {:induction false} PendingClaim(states: seq<Conns>, events: seq<ConnEvent>, i: nat) returns (claim: nat)
    requires ConnRun(states, events) && i < |events| && states[i].accepting.Claimed?
    ensures claim < i && events[claim] == Claim
    ensures forall j :: claim < j < i ==> events[j].Finish?
    ensures states[i].accepting == states[claim + 1].accepting
  {
    assert ConnStep(states[i - 1], events[i - 1], states[i]);
    if events[i - 1].Claim? {
      claim := i - 1;
    } else {
      claim := PendingClaim(states, events, i - 1);
    }
  }

  // ---------------------------------------------------------------------------
  // The rejection log
  // ---------------------------------------------------------------------------

  /** A caller between its load and its exchange. */
  datatype Caller = Caller(now: int, last: int)

  datatype Limiter = Limiter(cell: int, log: seq<int>, callers: map<nat, Caller>)

  /** Clock readings are arbitrary, and the relaxed load may return any value the cell
      ever held. */
  datatype LimiterEvent = Load(caller: nat, now: int, last: int) | Exchange(caller: nat)

  ghost predicate LimiterStep(s: Limiter, e: LimiterEvent, t: Limiter) {
    match e
    case Load(c, now, last) =>
      && c !in s.callers && (last == 0 || last in s.log)
      && t == if now - last < REJECT_LOG_DEDUP_MS then s else s.(callers := s.callers[c := Caller(now, last)])
    case Exchange(c) =>
      && c in s.callers
      && var k := s.callers[c];
         t == Limiter(Exchanged(s.cell, k.last, k.now),
                      if s.cell == k.last then s.log + [k.now] else s.log,
                      s.callers - {c})
  }

  ghost predicate LimiterRun(states: seq<Limiter>, events: seq<LimiterEvent>) {
    && |states| == |events| + 1
    && states[0] == Limiter(0, [], map[])
    && forall i :: 0 <= i < |events| ==> LimiterStep(states[i], events[i], states[i + 1])
  }

  predicate Spaced(log: seq<int>) {
    forall i, j :: 0 <= i < j < |log| ==> log[j] - log[i] >= 1000
  }

  ghost predicate LimiterInv(s: Limiter) {
    && s.cell == (if s.log == [] then 0 else s.log[|s.log| - 1])
    && Spaced(s.log)
    && forall c :: c in s.callers ==> s.callers[c].now - s.callers[c].last >= REJECT_LOG_DEDUP_MS
  }

  /** Logged rejections are at least a second apart and in increasing order, for every
      interleaving and every clock. */
  lemma {:induction false} RejectionsAreSpaced(states: seq<Limiter>, events: seq<LimiterEvent>, i: nat)
    requires LimiterRun(states, events) && i < |states|
    ensures LimiterInv(states[i])
  {
    if i > 0 {
      RejectionsAreSpaced(states, events, i - 1);
      assert LimiterStep(states[i - 1], events[i - 1], states[i]);
    }
  }
}
