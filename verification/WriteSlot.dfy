/** The write slot of the helper and its cancel protocol (`commands.rs`). */
module WriteSlot {
  import opened Prelude

  // Many connection threads share one optional in-flight operation behind a mutex, every
  // write has its own cancel token, and `cancel` reads the token under the lock but sets it
  // after the lock is dropped.  The classes are the operations one thread performs.  The
  // state machine below them interleaves any number of threads at the granularity of lock,
  // one access, unlock.

  /** The occupant of the slot; `T` stands for the shared cancel token. */
  datatype InFlight<T> = InFlight(op: string, args: seq<string>, startedAt: string, token: T)

  datatype BusyHint = BusyHint(op: string, args: seq<string>, startedAt: string, cancelPending: bool)

  /** The final mapping of `run_with_write_slot`: errors only, and only with the token set. */
  function MapOutcome(r: Outcome, tokenSet: bool): Outcome {
    if r.Failed? && tokenSet then Cancelled(false) else r
  }

  // ---------------------------------------------------------------------------
  // One thread's operations
  // ---------------------------------------------------------------------------

  class CancelToken {
    var flag: bool

    constructor ()
      ensures !flag
    {
      flag := false;
    }
  }

  class WriteState {
    var inFlight: Option<InFlight<CancelToken>>

    constructor ()
      ensures inFlight == None
    {
      inFlight := None;
    }

    /** Claim the slot, or report the occupant that blocks the claim. */
    method TryClaim(op: string, args: seq<string>, startedAt: string, token: CancelToken)
      returns (blocker: Option<(string, seq<string>)>)
      modifies this
      ensures blocker.None? <==> old(inFlight).None?
      ensures blocker.None? ==> inFlight == Some(InFlight(op, args, startedAt, token))
      ensures blocker.Some? ==> inFlight == old(inFlight) && blocker == Some((inFlight.value.op, inFlight.value.args))
    {
      if inFlight.Some? {
        return Some((inFlight.value.op, inFlight.value.args));
      }
      inFlight := Some(InFlight(op, args, startedAt, token));
      blocker := None;
    }

    /** The guard's drop. */
    method Clear()
      modifies this
      ensures inFlight == None
    {
      inFlight := None;
    }

    method SnapshotBusy() returns (hint: Option<BusyHint>)
      ensures hint.Some? <==> inFlight.Some?
      ensures hint.Some? ==>
                var w := inFlight.value;
                hint == Some(BusyHint(w.op, w.args, w.startedAt, w.token.flag))
    {
      if inFlight.None? {
        return None;
      }
      var w := inFlight.value;
      hint := Some(BusyHint(w.op, w.args, w.startedAt, w.token.flag));
    }

    /** `cmd_cancel` without interference: the slot is not touched, only its token. */
    method Cancel() returns (target: Option<InFlight<CancelToken>>)
      modifies if inFlight.Some? then {inFlight.value.token} else {}
      ensures target == inFlight
      ensures target.Some? ==> target.value.token.flag
    {
      target := inFlight;
      if target.Some? {
        target.value.token.flag := true;
      }
    }

    /** `run_with_write_slot` around a body that ends with `result` and during which the
        token may have been set. */
    method RunWithWriteSlot(op: string, args: seq<string>, startedAt: string, result: Outcome, cancelled: bool)
      returns (blocker: Option<(string, seq<string>)>, outcome: Outcome)
      modifies this
      ensures inFlight == old(inFlight)
      ensures blocker.Some? <==> old(inFlight).Some?
      ensures blocker.Some? ==> blocker == Some((inFlight.value.op, inFlight.value.args))
      ensures blocker.None? ==> (outcome == Ok <==> result == Ok)
      ensures blocker.None? && result.Cancelled? ==> outcome == result
      ensures blocker.None? && result.Failed? ==> outcome == if cancelled then Cancelled(false) else result
    {
      var token := new CancelToken();
      outcome := Ok;
      blocker := TryClaim(op, args, startedAt, token);
      if blocker.Some? {
        return;
      }
      token.flag := cancelled;
      outcome := MapOutcome(result, token.flag);
      Clear();
    }
  }

  // ---------------------------------------------------------------------------
  // All interleavings
  // ---------------------------------------------------------------------------

  type Tid = nat

  type Write = InFlight<nat>

  /** Where a connection thread is.  Threads in a `Locked`, `Won`, `Lost`, `Dropped`,
      `Look` or `Read` phase hold the mutex. */
  datatype Phase =
    // a write
    | ClaimStart(w: Write)
    | ClaimLocked(w: Write)
    | ClaimWon(w: Write)
    | ClaimLost(op: string, args: seq<string>)
    | Running(w: Write)
    | Returned(w: Write, result: Outcome)
    | Mapped(w: Write, result: Outcome)
    | DropLocked(w: Write, result: Outcome)
    | Dropped(w: Write, result: Outcome)
    | WriteDone(w: Write, result: Outcome)
    | Rejected(op: string, args: seq<string>)
    // a cancel
    | CancelStart
    | CancelLocked
    | CancelLooked(target: Option<Write>)
    | CancelStore(target: Option<Write>)
    | CancelDone(target: Option<Write>)
    // a status request
    | StatusStart
    | StatusLocked
    | StatusRead(occupant: Write)
    | StatusLoaded(hint: Option<BusyHint>)
    | StatusDone(hint: Option<BusyHint>)

  predicate HoldsLock(p: Phase) {
    || p.ClaimLocked? || p.ClaimWon? || p.ClaimLost? || p.DropLocked? || p.Dropped?
    || p.CancelLocked? || p.CancelLooked? || p.StatusLocked? || p.StatusRead? || p.StatusLoaded?
  }

  /** From the successful claim until the guard's drop. */
  predicate HoldsSlot(p: Phase) {
    p.ClaimWon? || p.Running? || p.Returned? || p.Mapped? || p.DropLocked?
  }

  predicate HasWrite(p: Phase) {
    p.ClaimStart? || p.ClaimLocked? || HoldsSlot(p) || p.Dropped? || p.WriteDone?
  }

  predicate HasResult(p: Phase) {
    p.Returned? || p.Mapped? || p.DropLocked? || p.Dropped? || p.WriteDone?
  }

  predicate HasTarget(p: Phase) {
    p.CancelLooked? || p.CancelStore? || p.CancelDone?
  }

  /** `tokens` are the cancel flags allocated so far.  `owner` and `targets` record which
      thread allocated a token and which tokens some cancel has read from the slot. */
  datatype State = State(
    lock: Option<Tid>,
    slot: Option<Write>,
    tokens: map<nat, bool>,
    threads: map<Tid, Phase>,
    owner: map<nat, Tid>,
    targets: set<nat>)

  function To(s: State, t: Tid, p: Phase): State {
    s.(threads := s.threads[t := p])
  }

  /** The lock acquisitions. */
  function AfterLock(p: Phase): Option<Phase> {
    match p
    case ClaimStart(w) => Some(ClaimLocked(w))
    case Mapped(w, r) => Some(DropLocked(w, r))
    case CancelStart => Some(CancelLocked)
    case StatusStart => Some(StatusLocked)
    case _ => None
  }

  /** The lock releases. */
  function AfterUnlock(p: Phase): Option<Phase> {
    match p
    case ClaimWon(w) => Some(Running(w))
    case ClaimLost(op, args) => Some(Rejected(op, args))
    case Dropped(w, r) => Some(WriteDone(w, r))
    case CancelLooked(target) => Some(CancelStore(target))
    case StatusLoaded(hint) => Some(StatusDone(hint))
    case _ => None
  }

  datatype Event =
    | NewWrite(t: Tid, w: Write)
    | NewCancel(t: Tid)
    | NewStatus(t: Tid)
    | Lock(t: Tid)
    | Unlock(t: Tid)
    | Claim(t: Tid)
    | Return(t: Tid, result: Outcome)
    | Map(t: Tid)
    | Drop(t: Tid)
    | Look(t: Tid)
    | Store(t: Tid)
    | Read(t: Tid)
    | Load(t: Tid)

  ghost predicate Step(s: State, e: Event, s': State) {
    if e.NewWrite? then
      && e.t !in s.threads && e.w.token !in s.tokens
      && s' == To(s, e.t, ClaimStart(e.w)).(tokens := s.tokens[e.w.token := false],
                                            owner := s.owner[e.w.token := e.t])
    else if e.NewCancel? then e.t !in s.threads && s' == To(s, e.t, CancelStart)
    else if e.NewStatus? then e.t !in s.threads && s' == To(s, e.t, StatusStart)
    else e.t in s.threads && ThreadStep(s, e, s.threads[e.t], s')
  }

  /** A step of the thread `e.t`, now in phase `p`. */
  ghost predicate ThreadStep(s: State, e: Event, p: Phase, s': State) {
    match e
    case Lock(t) =>
      s.lock.None? && AfterLock(p).Some? && s' == To(s, t, AfterLock(p).value).(lock := Some(t))
    case Unlock(t) =>
      AfterUnlock(p).Some? && s' == To(s, t, AfterUnlock(p).value).(lock := None)
    case Claim(t) =>
      && p.ClaimLocked?
      && s' == (match s.slot
                case Some(f) => To(s, t, ClaimLost(f.op, f.args))
                case None => To(s, t, ClaimWon(p.w)).(slot := Some(p.w)))
    // the streaming code reports Cancelled only after reading the token as set
    case Return(t, r) =>
      && p.Running? && p.w.token in s.tokens && (r.Cancelled? ==> s.tokens[p.w.token])
      && s' == To(s, t, Returned(p.w, r))
    case Map(t) =>
      && p.Returned? && p.w.token in s.tokens
      && s' == To(s, t, Mapped(p.w, MapOutcome(p.result, s.tokens[p.w.token])))
    case Drop(t) =>
      p.DropLocked? && s' == To(s, t, Dropped(p.w, p.result)).(slot := None)
    case Look(t) =>
      && p.CancelLocked?
      && s' == To(s, t, CancelLooked(s.slot)).(targets := s.targets + (if s.slot.Some? then {s.slot.value.token} else {}))
    case Store(t) =>
      && p.CancelStore?
      && s' == To(s, t, CancelDone(p.target)).(
           tokens := if p.target.Some? then s.tokens[p.target.value.token := true] else s.tokens)
    case Read(t) =>
      && p.StatusLocked?
      && s' == To(s, t, if s.slot.Some? then StatusRead(s.slot.value) else StatusLoaded(None))
    case Load(t) =>
      && p.StatusRead? && p.occupant.token in s.tokens
      && s' == To(s, t, StatusLoaded(Some(BusyHint(p.occupant.op, p.occupant.args, p.occupant.startedAt,
                                                   s.tokens[p.occupant.token]))))
    case _ => false
  }

  ghost predicate Run(states: seq<State>, events: seq<Event>) {
    && |states| == |events| + 1
    && states[0] == State(None, None, map[], map[], map[], {})
    && forall i :: 0 <= i < |events| ==> Step(states[i], events[i], states[i + 1])
  }

  // ---------------------------------------------------------------------------
  // The invariant
  // ---------------------------------------------------------------------------

  ghost predicate LockInv(s: State) {
    && (forall t :: t in s.threads ==> (HoldsLock(s.threads[t]) <==> s.lock == Some(t)))
    && (s.lock.Some? ==> s.lock.value in s.threads)
  }

  ghost predicate SlotInv(s: State) {
    HoldersInSlot(s) && SlotIsHeld(s)
  }

  ghost predicate HoldersInSlot(s: State) {
    forall t :: t in s.threads && HoldsSlot(s.threads[t]) ==> s.slot == Some(s.threads[t].w)
  }

  ghost predicate SlotIsHeld(s: State) {
    s.slot.Some? ==>
      && s.slot.value.token in s.owner
      && var t := s.owner[s.slot.value.token];
         t in s.threads && HoldsSlot(s.threads[t]) && s.threads[t].w == s.slot.value
  }

  ghost predicate TokenInv(s: State) {
    && s.owner.Keys == s.tokens.Keys
    && (forall t :: t in s.threads && HasWrite(s.threads[t]) ==>
          s.threads[t].w.token in s.owner && s.owner[s.threads[t].w.token] == t)
  }

  ghost predicate FlagInv(s: State) {
    s.targets <= s.tokens.Keys && forall k :: k in s.tokens && s.tokens[k] ==> k in s.targets
  }

  ghost predicate TargetInv(s: State) {
    forall t :: t in s.threads && HasTarget(s.threads[t]) && s.threads[t].target.Some? ==>
      s.threads[t].target.value.token in s.targets
  }

  ghost predicate ResultInv(s: State) {
    forall t :: t in s.threads && HasResult(s.threads[t]) && s.threads[t].result.Cancelled? ==>
      s.threads[t].w.token in s.targets
  }

  ghost predicate StatusInv(s: State) {
    forall t :: t in s.threads && s.threads[t].StatusRead? ==> s.slot == Some(s.threads[t].occupant)
  }

  ghost predicate Inv(s: State) {
    && LockInv(s) && SlotInv(s) && TokenInv(s) && StatusInv(s)
    && FlagInv(s) && TargetInv(s) && ResultInv(s)
  }

  lemma StepKeepsLock(s: State, e: Event, s': State)
    requires Inv(s) && Step(s, e, s')
    ensures LockInv(s')
  {
  }

  lemma StepKeepsTokens(s: State, e: Event, s': State)
    requires TokenInv(s) && FlagInv(s) && TargetInv(s) && Step(s, e, s')
    ensures TokenInv(s')
  {
    if !e.NewWrite? {
      assert s'.owner == s.owner;
      assert e.Store? || s'.tokens == s.tokens;
    }
  }

  lemma StepKeepsSlot(s: State, e: Event, s': State)
    requires Inv(s) && Step(s, e, s')
    ensures SlotInv(s')
  {
    StepKeepsHolders(s, e, s');
    StepKeepsHeld(s, e, s');
  }

  lemma StepKeepsHeld(s: State, e: Event, s': State)
    requires LockInv(s) && SlotInv(s) && TokenInv(s) && Step(s, e, s')
    ensures SlotIsHeld(s')
  {
  }

  lemma StepKeepsHolders(s: State, e: Event, s': State)
    requires LockInv(s) && SlotInv(s) && TokenInv(s) && Step(s, e, s')
    ensures HoldersInSlot(s')
  {
    if e.Drop? {
      forall t | t in s'.threads ensures !HoldsSlot(s'.threads[t]) {
        if t != e.t && HoldsSlot(s.threads[t]) { OneWriter(s, t, e.t); }
      }
    }
  }

  lemma StepKeepsTargets(s: State, e: Event, s': State)
    requires SlotInv(s) && TokenInv(s) && FlagInv(s) && TargetInv(s) && Step(s, e, s')
    ensures FlagInv(s') && TargetInv(s')
  {
  }

  lemma StepKeepsResults(s: State, e: Event, s': State)
    requires FlagInv(s) && ResultInv(s) && Step(s, e, s')
    ensures ResultInv(s')
  {
  }

  lemma StepKeepsStatus(s: State, e: Event, s': State)
    requires LockInv(s) && StatusInv(s) && Step(s, e, s')
    ensures StatusInv(s')
  {
  }

  lemma {:induction false} RunInv(states: seq<State>, events: seq<Event>, i: nat)
    requires Run(states, events) && i < |states|
    ensures Inv(states[i])
  {
    if i > 0 {
      RunInv(states, events, i - 1);
      assert Step(states[i - 1], events[i - 1], states[i]);
      StepKeepsLock(states[i - 1], events[i - 1], states[i]);
      StepKeepsSlot(states[i - 1], events[i - 1], states[i]);
      StepKeepsTokens(states[i - 1], events[i - 1], states[i]);
      StepKeepsTargets(states[i - 1], events[i - 1], states[i]);
      StepKeepsResults(states[i - 1], events[i - 1], states[i]);
      StepKeepsStatus(states[i - 1], events[i - 1], states[i]);
    }
  }

  lemma OneWriter(s: State, t: Tid, u: Tid)
    requires SlotInv(s) && TokenInv(s)
    requires t in s.threads && u in s.threads && HoldsSlot(s.threads[t]) && HoldsSlot(s.threads[u])
    ensures t == u
  {
    assert s.threads[t].w == s.threads[u].w;
  }

  // ---------------------------------------------------------------------------
  // What holds in every run
  // ---------------------------------------------------------------------------

  /** At most one write is in flight; the slot is occupied exactly while one is, by that
      write; and the unconditional clear of a guard's drop clears its own claim. */
  lemma SlotIsTheWriteInFlight(states: seq<State>, events: seq<Event>, i: nat)
    requires Run(states, events) && i < |states|
    ensures forall t, u | t in states[i].threads && u in states[i].threads ::
              HoldsSlot(states[i].threads[t]) && HoldsSlot(states[i].threads[u]) ==> t == u
    ensures states[i].slot.Some? <==> exists t :: t in states[i].threads && HoldsSlot(states[i].threads[t])
    ensures i < |events| && events[i].Drop? ==>
              && events[i].t in states[i].threads && HoldsSlot(states[i].threads[events[i].t])
              && states[i].slot == Some(states[i].threads[events[i].t].w)
              && states[i + 1].slot == None
  {
    RunInv(states, events, i);
    var s := states[i];
    forall t, u | t in s.threads && u in s.threads && HoldsSlot(s.threads[t]) && HoldsSlot(s.threads[u])
      ensures t == u
    {
      OneWriter(s, t, u);
    }
    if i < |events| { assert Step(states[i], events[i], states[i + 1]); }
  }

  lemma {:induction false} OwnerIsStable(states: seq<State>, events: seq<Event>, i: nat, j: nat, k: nat)
    requires Run(states, events) && i <= j < |states| && k in states[i].owner
    ensures k in states[j].owner && states[j].owner[k] == states[i].owner[k]
    decreases j - i
  {
    if i < j {
      OwnerIsStable(states, events, i, j - 1, k);
      RunInv(states, events, j - 1);
      assert Step(states[j - 1], events[j - 1], states[j]);
    }
  }

  /** A token is a target only because some cancel found it in the slot. */
  lemma {:induction false} TargetWasLookedAt(states: seq<State>, events: seq<Event>, i: nat, k: nat) returns (j: nat)
    requires Run(states, events) && i < |states| && k in states[i].targets
    ensures j < i && events[j].Look? && states[j].slot.Some? && states[j].slot.value.token == k
  {
    assert Step(states[i - 1], events[i - 1], states[i]);
    if k in states[i - 1].targets {
      j := TargetWasLookedAt(states, events, i - 1, k);
    } else {
      j := i - 1;
    }
  }

  /** A write that ends Cancelled, or whose token is set, was found in the slot by a cancel
      while that very write held it. */
  lemma CancelledWriteWasTargeted(states: seq<State>, events: seq<Event>, i: nat, t: Tid) returns (j: nat)
    requires Run(states, events) && i < |states|
    requires t in states[i].threads && HasWrite(states[i].threads[t])
    requires var p := states[i].threads[t];
             || (HasResult(p) && p.result.Cancelled?)
             || (p.w.token in states[i].tokens && states[i].tokens[p.w.token])
    ensures j < i && events[j].Look?
    ensures t in states[j].threads && HoldsSlot(states[j].threads[t])
    ensures states[j].slot == Some(states[j].threads[t].w)
    ensures states[j].threads[t].w.token == states[i].threads[t].w.token
  {
    RunInv(states, events, i);
    var k := states[i].threads[t].w.token;
    j := TargetWasLookedAt(states, events, i, k);
    RunInv(states, events, j);
    OwnerIsStable(states, events, j, i, k);
  }

  /** The target a cancel carries is what its own look found in the slot. */
  lemma {:induction false} TargetIsWhatItSaw(states: seq<State>, events: seq<Event>, i: nat, c: Tid) returns (j: nat)
    requires Run(states, events) && i < |states| && c in states[i].threads && HasTarget(states[i].threads[c])
    ensures j < i && events[j] == Look(c) && states[i].threads[c].target == states[j].slot
  {
    TargetStep(states[i - 1], events[i - 1], states[i], c);
    if events[i - 1] == Look(c) {
      j := i - 1;
    } else {
      j := TargetIsWhatItSaw(states, events, i - 1, c);
    }
  }

  lemma TargetStep(s: State, e: Event, s': State, c: Tid)
    requires Step(s, e, s') && c in s'.threads && HasTarget(s'.threads[c])
    ensures e == Look(c) ==> s'.threads[c].target == s.slot
    ensures e != Look(c) ==>
              c in s.threads && HasTarget(s.threads[c]) && s.threads[c].target == s'.threads[c].target
  {
  }

  /** Every thread but `except` that has a write keeps its phase and its token's flag. */
  ghost predicate OthersKept(s: State, s': State, except: set<Tid>) {
    forall t :: t in s.threads && HasWrite(s.threads[t]) && t !in except ==>
      && t in s'.threads && s'.threads[t] == s.threads[t]
      && s.threads[t].w.token in s.tokens && s.threads[t].w.token in s'.tokens
      && s'.tokens[s.threads[t].w.token] == s.tokens[s.threads[t].w.token]
  }

  /** The holder of a non-empty slot. */
  ghost predicate IsHolder(s: State, t: Tid) {
    s.slot.Some? && t in s.threads && HoldsSlot(s.threads[t]) && s.threads[t].w == s.slot.value
  }

  /** Whenever a cancel sets a token, it is the token of the write that held the slot at
      this cancel's own look, even if that write has ended and another one has started
      since.  Every other write keeps its phase and its flag; a cancel that found the slot
      empty changes none at all. */
  lemma CancelReachesOnlyWhatItSaw(states: seq<State>, events: seq<Event>, i: nat) returns (j: nat, holders: set<Tid>)
    requires Run(states, events) && i < |events| && events[i].Store?
    ensures j < i && events[j] == Look(events[i].t)
    ensures holders == {} <==> states[j].slot.None?
    ensures forall t :: t in holders ==>
              IsHolder(states[j], t) && states[i + 1].tokens == states[i].tokens[states[j].slot.value.token := true]
    ensures |holders| <= 1 && OthersKept(states[i], states[i + 1], holders)
    ensures states[i + 1].slot == states[i].slot && states[i + 1].lock == states[i].lock
  {
    assert Step(states[i], events[i], states[i + 1]);
    j := TargetIsWhatItSaw(states, events, i, events[i].t);
    RunInv(states, events, i);
    RunInv(states, events, j);
    if states[j].slot.Some? {
      var k := states[j].slot.value.token;
      holders := {states[j].owner[k]};
      OwnerIsStable(states, events, j, i, k);
    } else {
      holders := {};
    }
  }

  /** What a write that has mapped its result reports: Ok exactly when its body returned Ok,
      a body's own cancel as it is, and any other error as a cancel without escalation
      exactly when the token was set at the mapping. */
  lemma {:induction false} ReportOfTheBody(states: seq<State>, events: seq<Event>, i: nat, t: Tid) returns (j: nat)
    requires Run(states, events) && i < |states| && t in states[i].threads
    requires HasResult(states[i].threads[t]) && !states[i].threads[t].Returned?
    ensures j < i && events[j] == Map(t) && t in states[j].threads && states[j].threads[t].Returned?
    ensures states[j].threads[t].w == states[i].threads[t].w
    ensures var body, report := states[j].threads[t].result, states[i].threads[t].result;
            && (report == Ok <==> body == Ok)
            && (body.Cancelled? ==> report == body)
            && (body.Failed? ==>
                  report == if TokenSet(states[j], states[j].threads[t].w.token) then Cancelled(false) else body)
  {
    assert Step(states[i - 1], events[i - 1], states[i]);
    if events[i - 1] == Map(t) {
      j := i - 1;
    } else {
      j := ReportOfTheBody(states, events, i - 1, t);
    }
  }

  predicate TokenSet(s: State, token: nat) {
    token in s.tokens && s.tokens[token]
  }

  /** A write no cancel ever found in the slot ends as its body ended. */
  lemma UntargetedWriteIsUndisturbed(states: seq<State>, events: seq<Event>, i: nat)
    requires Run(states, events) && i < |events| && events[i].Map?
    requires events[i].t in states[i].threads && states[i].threads[events[i].t].Returned?
    requires states[i].threads[events[i].t].w.token !in states[i].targets
    ensures events[i].t in states[i + 1].threads
    ensures states[i + 1].threads[events[i].t] ==
            Mapped(states[i].threads[events[i].t].w, states[i].threads[events[i].t].result)
    ensures !states[i].threads[events[i].t].result.Cancelled?
  {
    RunInv(states, events, i);
    assert Step(states[i], events[i], states[i + 1]);
  }

  /** What `snapshot_busy` would return if it read everything at once. */
  function SnapshotOf(s: State): Option<BusyHint> {
    if s.slot.Some? && s.slot.value.token in s.tokens then
      var w := s.slot.value;
      Some(BusyHint(w.op, w.args, w.startedAt, s.tokens[w.token]))
    else None
  }

  /** Every status answer is the snapshot of one state of the run, the one in which its own
      request made its last read, although it is put together from two reads. */
  lemma {:induction false} StatusIsOneState(states: seq<State>, events: seq<Event>, i: nat, t: Tid) returns (j: nat)
    requires Run(states, events) && i < |states| && t in states[i].threads
    requires HasHint(states[i].threads[t])
    ensures j < i && (events[j] == Read(t) || events[j] == Load(t))
    ensures states[i].threads[t].hint == SnapshotOf(states[j])
    ensures states[i].threads[t].hint.Some? <==> states[j].slot.Some?
    ensures states[j].slot.Some? ==>
              var hint, w := states[i].threads[t].hint.value, states[j].slot.value;
              && hint.op == w.op && hint.args == w.args && hint.startedAt == w.startedAt
              && hint.cancelPending == TokenSet(states[j], w.token)
  {
    RunInv(states, events, i - 1);
    assert Step(states[i - 1], events[i - 1], states[i]);
    StatusStep(states[i - 1], events[i - 1], states[i], t);
    if events[i - 1] == Read(t) || events[i - 1] == Load(t) {
      j := i - 1;
    } else {
      j := StatusIsOneState(states, events, i - 1, t);
    }
  }

  predicate HasHint(p: Phase) {
    p.StatusLoaded? || p.StatusDone?
  }

  lemma StatusStep(s: State, e: Event, s': State, t: Tid)
    requires TokenInv(s) && SlotInv(s) && StatusInv(s) && Step(s, e, s')
    requires t in s'.threads && HasHint(s'.threads[t])
    ensures e == Read(t) || e == Load(t) ==> s'.threads[t].hint == SnapshotOf(s)
    ensures e != Read(t) && e != Load(t) ==>
              t in s.threads && HasHint(s.threads[t]) && s.threads[t].hint == s'.threads[t].hint
  {
  }

  /** A rejected write names the operation that held the slot when it was rejected. */
  lemma {:induction false} RejectionNamesTheHolder(states: seq<State>, events: seq<Event>, i: nat, t: Tid)
    returns (j: nat, holder: Tid)
    requires Run(states, events) && i < |states| && t in states[i].threads
    requires HasLost(states[i].threads[t])
    ensures j < i && events[j] == Claim(t)
    ensures holder in states[j].threads && HoldsSlot(states[j].threads[holder])
    ensures states[i].threads[t].op == states[j].threads[holder].w.op
    ensures states[i].threads[t].args == states[j].threads[holder].w.args
  {
    RunInv(states, events, i - 1);
    assert Step(states[i - 1], events[i - 1], states[i]);
    LossStep(states[i - 1], events[i - 1], states[i], t);
    if events[i - 1] == Claim(t) {
      j := i - 1;
      holder := states[j].owner[states[j].slot.value.token];
    } else {
      j, holder := RejectionNamesTheHolder(states, events, i - 1, t);
    }
  }

  predicate HasLost(p: Phase) {
    p.ClaimLost? || p.Rejected?
  }

  lemma LossStep(s: State, e: Event, s': State, t: Tid)
    requires Step(s, e, s') && t in s'.threads && HasLost(s'.threads[t])
    ensures e == Claim(t) ==>
              s.slot.Some? && s'.threads[t].op == s.slot.value.op && s'.threads[t].args == s.slot.value.args
    ensures e != Claim(t) ==>
              && t in s.threads && HasLost(s.threads[t])
              && s.threads[t].op == s'.threads[t].op && s.threads[t].args == s'.threads[t].args
  {
  }
}
