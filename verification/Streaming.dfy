/** `run_command_streaming` and its two reader threads (`commands.rs`). */
module Streaming {
  import opened Prelude
  import opened Utf8

  // `Main` holds the local variables of the receive loop together with what the loop has
  // done to the outside: the lines written and the signals sent.  `StreamLoop` is the loop
  // itself, updating these variables in place.  The state machine at the end runs it
  // against the two readers, the child, the clock and the two flags in every interleaving.

  /** CANCEL_GRACEFUL_TIMEOUT */
  const GRACE_MS: nat := 2_000

  datatype Kind = Out | Err

  datatype Msg = Line(kind: Kind, text: bytes) | Done

  datatype Signal = Term | Kill

  datatype Cause = BrokenPipe | CancelTerm | CancelGraceOver | CancelFallback | Shutdown

  /** `group` is false when the pid cannot be negated and only the leader is killed. */
  datatype Sent = Sent(signal: Signal, group: bool, cause: Cause, at: nat)

  datatype Main = Main(
    doneCount: nat,
    writeFailed: bool,
    childKilled: bool,
    cancelTermed: bool,
    termAt: Option<nat>,
    escalated: bool,
    written: seq<Msg>,
    signals: seq<Sent>)

  const START := Main(0, false, false, false, None, false, [], [])

  /** What one turn of the loop gets from outside.  `msg` is absent on a receive timeout;
      `exited` is a `try_wait` that reports the child's exit.  The first three belong to the
      receive half, the others to the check. */
  datatype Turn = Turn(
    msg: Option<Msg>,
    writeOk: bool,
    receivedAt: nat,
    cancel: bool,
    shutdown: bool,
    exited: bool,
    now: nat)

  function Killed(m: Main, groupOk: bool, cause: Cause, now: nat): Main {
    m.(childKilled := true, signals := m.signals + [Sent(Kill, groupOk, cause, now)])
  }

  /** Receive one message and forward it. */
  function Received(m: Main, groupOk: bool, t: Turn): Main {
    match t.msg
    case None => m
    case Some(Done) => m.(doneCount := m.doneCount + 1)
    case Some(line) =>
      if m.writeFailed then m
      else if t.writeOk then m.(written := m.written + [line])
      else
        var broken := m.(writeFailed := true);
        if m.childKilled then broken else Killed(broken, groupOk, BrokenPipe, t.receivedAt)
  }

  predicate GraceOver(m: Main, now: nat) {
    m.termAt.Some? && now >= m.termAt.value + GRACE_MS
  }

  /** Decide on a signal. */
  function Checked(m: Main, groupOk: bool, t: Turn): Main {
    if m.childKilled then m
    else if t.cancel && !m.cancelTermed then
      if groupOk then
        m.(cancelTermed := true, termAt := Some(t.now), signals := m.signals + [Sent(Term, true, CancelTerm, t.now)])
      else Killed(m, false, CancelFallback, t.now).(escalated := true)
    else if m.cancelTermed then
      if m.termAt.None? then m
      else if t.exited then m.(childKilled := true)
      else if GraceOver(m, t.now) then Killed(m, groupOk, CancelGraceOver, t.now).(escalated := true)
      else m
    else if t.shutdown then Killed(m, groupOk, Shutdown, t.now)
    else m
  }

  /** `try_wait` is asked only while waiting for the grace period. */
  predicate AsksForExit(m: Main, t: Turn) {
    !m.childKilled && !(t.cancel && !m.cancelTermed) && m.cancelTermed && m.termAt.Some?
  }

  function Turns(m: Main, groupOk: bool, turns: seq<Turn>): Main
    decreases |turns|
  {
    if turns == [] || m.doneCount >= 2 then m
    else
      var r := Received(m, groupOk, turns[0]);
      if r.doneCount >= 2 then r else Turns(Checked(r, groupOk, turns[0]), groupOk, turns[1..])
  }

  /** The receive half of one turn with the check half of another. */
  function Merged(receive: Turn, check: Turn): Turn {
    check.(msg := receive.msg, writeOk := receive.writeOk, receivedAt := receive.receivedAt)
  }

  /** What the function returns once the child has been waited for. */
  function FinalResult(m: Main, cancelSet: bool, success: bool): Outcome {
    if m.writeFailed then Failed("stream write failed: client disconnected")
    else if cancelSet then Cancelled(m.escalated)
    else if !success then Failed(if m.childKilled then "exit code (killed due to SIGTERM)" else "exit code")
    else Ok
  }

  // ---------------------------------------------------------------------------
  // The loop in place
  // ---------------------------------------------------------------------------

  class StreamLoop {
    const groupOk: bool
    var doneCount: nat
    var writeFailed: bool
    var childKilled: bool
    var cancelTermed: bool
    var termAt: Option<nat>
    var escalated: bool
    var written: seq<Msg>
    var signals: seq<Sent>

    function View(): Main
      reads this
    {
      Main(doneCount, writeFailed, childKilled, cancelTermed, termAt, escalated, written, signals)
    }

    constructor (groupOk: bool)
      ensures View() == START && this.groupOk == groupOk
    {
      this.groupOk := groupOk;
      doneCount, writeFailed, childKilled := 0, false, false;
      cancelTermed, termAt, escalated := false, None, false;
      written, signals := [], [];
    }

    /** `signal_process_group`: the whole group, or an error that sends nothing. */
    method SignalGroup(signal: Signal, cause: Cause, now: nat) returns (ok: bool)
      modifies `signals
      ensures ok == groupOk
      ensures signals == old(signals) + if ok then [Sent(signal, true, cause, now)] else []
    {
      ok := groupOk;
      if ok {
        signals := signals + [Sent(signal, true, cause, now)];
      }
    }

    method KillChild(cause: Cause, now: nat)
      modifies `signals
      ensures signals == old(signals) + [Sent(Kill, groupOk, cause, now)]
    {
      var ok := SignalGroup(Kill, cause, now);
      if !ok {
        signals := signals + [Sent(Kill, false, cause, now)];
      }
    }

    method Receive(t: Turn)
      modifies this
      ensures View() == Received(old(View()), groupOk, t)
      ensures t.msg.Some? && t.msg.value.Line? && !t.writeOk && !old(writeFailed) ==>
                && writeFailed && childKilled
                && signals == old(signals) + if old(childKilled) then [] else [Sent(Kill, groupOk, BrokenPipe, t.receivedAt)]
    {
      match t.msg {
        case None =>
        case Some(Done) =>
          doneCount := doneCount + 1;
        case Some(line) =>
          if !writeFailed {
            if t.writeOk {
              written := written + [line];
            } else {
              writeFailed := true;
              if !childKilled {
                KillChild(BrokenPipe, t.receivedAt);
                childKilled := true;
              }
            }
          }
      }
    }

    method Check(t: Turn)
      modifies this
      ensures View() == Checked(old(View()), groupOk, t)
    {
      if childKilled {
        return;
      }
      if t.cancel && !cancelTermed {
        var ok := SignalGroup(Term, CancelTerm, t.now);
        if ok {
          cancelTermed := true;
          termAt := Some(t.now);
        } else {
          signals := signals + [Sent(Kill, false, CancelFallback, t.now)];
          childKilled := true;
          escalated := true;
        }
      } else if cancelTermed {
        if termAt.Some? {
          if t.now - termAt.value >= GRACE_MS {
            if t.exited {
              childKilled := true;
            } else {
              KillChild(CancelGraceOver, t.now);
              childKilled := true;
              escalated := true;
            }
          } else if t.exited {
            childKilled := true;
          }
        }
      } else if t.shutdown {
        KillChild(Shutdown, t.now);
        childKilled := true;
      }
    }

    /** The loop over as many turns as it gets; it leaves on the second Done, before the
        check of that turn. */
    method Run(turns: seq<Turn>)
      requires doneCount < 2
      modifies this
      ensures View() == Turns(old(View()), groupOk, turns)
    {
      var i := 0;
      while i < |turns|
        invariant 0 <= i <= |turns|
        invariant doneCount < 2
        invariant Turns(View(), groupOk, turns[i..]) == Turns(old(View()), groupOk, turns)
      {
        assert turns[i..][1..] == turns[i + 1..];
        Receive(turns[i]);
        if doneCount >= 2 {
          return;
        }
        Check(turns[i]);
        i := i + 1;
      }
    }
  }

  /** `pipe_reader`: `items` are the lines of a pipe, None a read error.  One message is
      sent for every line before the first error, in order, and then the end. */
  method PipeReader(kind: Kind, items: seq<Option<bytes>>) returns (sent: seq<Msg>)
    ensures 0 < |sent| <= |items| + 1 && sent[|sent| - 1] == Done
    ensures forall k :: 0 <= k < |sent| - 1 ==> items[k].Some? && sent[k] == Line(kind, Truncate(items[k].value, 65_536))
    ensures |sent| <= |items| ==> items[|sent| - 1].None?
  {
    sent := [];
    for i := 0 to |items|
      invariant i == |sent|
      invariant forall k :: 0 <= k < i ==> items[k].Some? && sent[k] == ReadMsg(kind, items[k])
    {
      if items[i].None? {
        break;
      }
      var line := TruncateLine(items[i].value, MAX_LINE_LEN);
      sent := sent + [Line(kind, line)];
    }
    sent := sent + [Done];
  }

  function ReadMsg(kind: Kind, item: Option<bytes>): Msg {
    Line(kind, if item.Some? then Truncate(item.value, MAX_LINE_LEN) else [])
  }

  // ---------------------------------------------------------------------------
  // All interleavings
  // ---------------------------------------------------------------------------

  datatype Pc = Receiving | Checking | Waiting | Joined | Returned(result: Outcome)

  datatype Child = Alive | Exited | Reaped

  /** `sent` are the raw lines each reader has read, `cancelSeen` whether the loop has read
      the cancel token as set. */
  datatype State = State(
    main: Main,
    pc: Pc,
    groupOk: bool,
    channel: seq<Msg>,
    sent: map<Kind, seq<bytes>>,
    finished: set<Kind>,
    child: Child,
    cancel: bool,
    shutdown: bool,
    cancelSeen: bool,
    now: nat)

  datatype Event =
    | ReadLine(kind: Kind, raw: bytes)
    | ReadEnd(kind: Kind)
    | Tick(ms: nat)
    | ChildExits
    | SetCancel
    | SetShutdown
    | Receive(turn: Turn)
    | Disconnected
    | Check(turn: Turn)
    | Wait(ok: bool)
    | Finish(cancelSet: bool, success: bool)

  ghost predicate Init(s: State) {
    exists groupOk, cancel, shutdown, now ::
      s == State(START, Receiving, groupOk, [], map[Out := [], Err := []], {}, Alive, cancel, shutdown, false, now)
  }

  /** A load sees the token set only if it is, and stays with what it saw. */
  ghost predicate LoadsCancel(s: State, seen: bool) {
    (seen ==> s.cancel) && (s.cancelSeen ==> seen)
  }

  ghost predicate Step(s: State, e: Event, t: State) {
    match e
    case ReadLine(k, raw) =>
      && k !in s.finished && k in s.sent
      && t == s.(channel := s.channel + [ReadMsg(k, Some(raw))], sent := s.sent[k := s.sent[k] + [raw]])
    case ReadEnd(k) =>
      k !in s.finished && t == s.(channel := s.channel + [Done], finished := s.finished + {k})
    case Tick(ms) => t == s.(now := s.now + ms)
    case ChildExits => s.child.Alive? && t == s.(child := Exited)
    case SetCancel => t == s.(cancel := true)
    case SetShutdown => t == s.(shutdown := true)
    case Receive(turn) =>
      && s.pc.Receiving? && turn.receivedAt == s.now
      && (turn.msg.Some? ==> s.channel != [] && s.channel[0] == turn.msg.value)
      && var m := Received(s.main, s.groupOk, turn);
         t == s.(main := m,
                 channel := if turn.msg.Some? then s.channel[1..] else s.channel,
                 pc := if m.doneCount >= 2 then Waiting else Checking)
    case Disconnected =>
      s.pc.Receiving? && s.channel == [] && s.finished == {Out, Err} && t == s.(pc := Waiting)
    case Check(turn) =>
      && s.pc.Checking? && turn.now == s.now
      && LoadsCancel(s, turn.cancel) && (turn.shutdown ==> s.shutdown) && (turn.exited ==> !s.child.Alive?)
      && t == s.(main := Checked(s.main, s.groupOk, turn), pc := Receiving,
                 cancelSeen := s.cancelSeen || (turn.cancel && !s.main.childKilled),
                 child := if AsksForExit(s.main, turn) && turn.exited then Reaped else s.child)
    case Wait(ok) =>
      && s.pc.Waiting? && !s.child.Alive?
      && t == s.(child := Reaped, pc := if ok then Joined else Returned(Failed("failed to wait for child")))
    case Finish(cancelSet, success) =>
      && s.pc.Joined? && LoadsCancel(s, cancelSet)
      && t == s.(pc := Returned(FinalResult(s.main, cancelSet, success)))
  }

  ghost predicate Run(states: seq<State>, events: seq<Event>) {
    && |states| == |events| + 1
    && Init(states[0])
    && forall i :: 0 <= i < |events| ==> Step(states[i], events[i], states[i + 1])
  }

  predicate InLoop(pc: Pc) {
    pc.Receiving? || pc.Checking?
  }

  // ---------------------------------------------------------------------------
  // Delivery
  // ---------------------------------------------------------------------------

  function OfKind(msgs: seq<Msg>, k: Kind): seq<bytes> {
    if msgs == [] then []
    else
      var last := msgs[|msgs| - 1];
      OfKind(msgs[..|msgs| - 1], k) + (if last.Line? && last.kind == k then [last.text] else [])
  }

  function Dones(msgs: seq<Msg>): nat {
    if msgs == [] then 0
    else Dones(msgs[..|msgs| - 1]) + (if msgs[|msgs| - 1].Done? then 1 else 0)
  }

  function Truncated(raw: seq<bytes>): seq<bytes> {
    if raw == [] then [] else Truncated(raw[..|raw| - 1]) + [Truncate(raw[|raw| - 1], MAX_LINE_LEN)]
  }

  lemma Snoc(msgs: seq<Msg>, m: Msg, k: Kind)
    ensures OfKind(msgs + [m], k) == OfKind(msgs, k) + (if m.Line? && m.kind == k then [m.text] else [])
    ensures Dones(msgs + [m]) == Dones(msgs) + (if m.Done? then 1 else 0)
  {
    assert (msgs + [m])[..|msgs|] == msgs;
  }

  function TextOf(m: Msg, k: Kind): seq<bytes> {
    if m.Line? && m.kind == k then [m.text] else []
  }

  lemma {:induction false} OfKindConcat(a: seq<Msg>, b: seq<Msg>, k: Kind)
    ensures OfKind(a + b, k) == OfKind(a, k) + OfKind(b, k)
  {
    if b == [] {
      assert a + b == a;
    } else {
      var front, last := b[..|b| - 1], b[|b| - 1];
      OfKindConcat(a, front, k);
      assert a + b == a + front + [last];
      assert OfKind(a + b, k) == OfKind(a + front, k) + TextOf(last, k) by { Snoc(a + front, last, k); }
      assert OfKind(b, k) == OfKind(front, k) + TextOf(last, k);
    }
  }

  lemma {:induction false} DonesConcat(a: seq<Msg>, b: seq<Msg>)
    ensures Dones(a + b) == Dones(a) + Dones(b)
  {
    if b == [] {
      assert a + b == a;
    } else {
      var front, last := b[..|b| - 1], b[|b| - 1];
      DonesConcat(a, front);
      Snoc(a + front, last, Out);
      assert a + b == a + front + [last];
    }
  }

  lemma TakeFirst(msgs: seq<Msg>, k: Kind)
    requires msgs != []
    ensures OfKind(msgs, k) == TextOf(msgs[0], k) + OfKind(msgs[1..], k)
    ensures Dones(msgs) == (if msgs[0].Done? then 1 else 0) + Dones(msgs[1..])
  {
    var first: seq<Msg> := [msgs[0]];
    assert msgs == first + msgs[1..];
    OfKindConcat(first, msgs[1..], k);
    DonesConcat(first, msgs[1..]);
    assert first == [] + first;
    Snoc([], msgs[0], k);
  }

  lemma SnocRaw(raw: seq<bytes>, line: bytes)
    ensures Truncated(raw + [line]) == Truncated(raw) + [Truncate(line, MAX_LINE_LEN)]
  {
    assert (raw + [line])[..|raw|] == raw;
  }

  ghost predicate DeliveryInv(s: State, k: Kind) {
    && k in s.sent
    && (!s.main.writeFailed ==> OfKind(s.main.written, k) + OfKind(s.channel, k) == Truncated(s.sent[k]))
    && OfKind(s.main.written, k) <= Truncated(s.sent[k])
  }

  ghost predicate DoneInv(s: State) {
    && s.main.doneCount + Dones(s.channel) == |s.finished|
    && (s.finished == {Out, Err} && s.main.doneCount < 2 ==> s.channel != [] && s.channel[|s.channel| - 1] == Done)
    && (InLoop(s.pc) ==> s.main.doneCount < 2)
    && (!InLoop(s.pc) ==> s.main.doneCount == 2 && s.channel == [])
    && (s.main.doneCount == 2 ==> s.finished == {Out, Err})
  }

  lemma FinishedSize(f: set<Kind>)
    ensures |f| <= 2
    ensures |f| == 2 <==> f == {Out, Err}
  {
    forall k | k in f ensures k in {Out, Err} {
      match k { case Out => case Err => }
    }
    assert f <= {Out, Err};
    assert {Out, Err} == f + ({Out, Err} - f);
    assert |{Out, Err}| == 2;
  }

  lemma ReadKeepsDelivery(s: State, kind: Kind, raw: bytes, t: State, k: Kind)
    requires DeliveryInv(s, k) && Step(s, ReadLine(kind, raw), t)
    ensures DeliveryInv(t, k)
  {
    Snoc(s.channel, ReadMsg(kind, Some(raw)), k);
    SnocRaw(s.sent[kind], raw);
    var w := OfKind(s.main.written, k);
    assert w + (OfKind(s.channel, k) + [Truncate(raw, MAX_LINE_LEN)])
        == w + OfKind(s.channel, k) + [Truncate(raw, MAX_LINE_LEN)];
  }

  lemma ReceiveKeepsDelivery(s: State, turn: Turn, t: State, k: Kind)
    requires DeliveryInv(s, k) && Step(s, Receive(turn), t)
    ensures DeliveryInv(t, k)
  {
    if turn.msg.Some? {
      assert s.channel != [] && s.channel[0] == turn.msg.value && t.channel == s.channel[1..];
      TakeFirst(s.channel, k);
      if t.main.written != s.main.written {
        Moved(s.main.written, turn.msg.value, t.channel, k);
      }
    }
  }

  lemma Moved(written: seq<Msg>, m: Msg, rest: seq<Msg>, k: Kind)
    ensures OfKind(written + [m], k) + OfKind(rest, k) == OfKind(written, k) + (TextOf(m, k) + OfKind(rest, k))
  {
    Snoc(written, m, k);
  }

  lemma StepKeepsDelivery(s: State, e: Event, t: State, k: Kind)
    requires DeliveryInv(s, k) && Step(s, e, t)
    ensures DeliveryInv(t, k)
  {
    if e.ReadLine? {
      ReadKeepsDelivery(s, e.kind, e.raw, t, k);
    } else if e.Receive? {
      ReceiveKeepsDelivery(s, e.turn, t, k);
    } else if e.ReadEnd? {
      Snoc(s.channel, Done, k);
    } else if e.Check? {
      CheckedWrites(s.main, s.groupOk, e.turn);
    }
  }

  lemma ReceiveKeepsDone(s: State, turn: Turn, t: State)
    requires DoneInv(s) && Step(s, Receive(turn), t)
    ensures DoneInv(t)
  {
    FinishedSize(s.finished);
    if turn.msg.Some? {
      TakeFirst(s.channel, Out);
      assert t.main.doneCount == s.main.doneCount + if turn.msg.value.Done? then 1 else 0;
      // a last message that stays in the channel is a Done still to be counted
      assert t.channel != [] ==> t.channel[|t.channel| - 1] == s.channel[|s.channel| - 1];
    }
  }

  lemma ReadersKeepDone(s: State, e: Event, t: State)
    requires DoneInv(s) && Step(s, e, t) && (e.ReadLine? || e.ReadEnd?)
    ensures DoneInv(t)
  {
    FinishedSize(s.finished);
    FinishedSize(t.finished);
    if e.ReadLine? {
      Snoc(s.channel, ReadMsg(e.kind, Some(e.raw)), Out);
    } else {
      Snoc(s.channel, Done, Out);
    }
  }

  lemma StepKeepsDone(s: State, e: Event, t: State)
    requires DoneInv(s) && Step(s, e, t)
    ensures DoneInv(t)
  {
    if e.ReadLine? || e.ReadEnd? {
      ReadersKeepDone(s, e, t);
    } else if e.Receive? {
      ReceiveKeepsDone(s, e.turn, t);
    } else if e.Disconnected? {
      assert false;
    } else if e.Check? {
      CheckedWrites(s.main, s.groupOk, e.turn);
    }
  }

  // ---------------------------------------------------------------------------
  // Signals
  // ---------------------------------------------------------------------------

  predicate ByCancel(c: Cause) {
    c == CancelGraceOver || c == CancelFallback
  }

  /** The signals sent are none, a SIGTERM, a SIGKILL, or a SIGTERM and then a SIGKILL. */
  ghost predicate Disciplined(m: Main, groupOk: bool, now: nat) {
    && |m.signals| <= 2
    && (m.cancelTermed <==> m.signals != [] && m.signals[0].signal == Term)
    && (m.cancelTermed <==> m.termAt.Some?)
    && (m.cancelTermed ==> m.termAt.value == m.signals[0].at && groupOk)
    && (|m.signals| == 2 ==> m.signals[0].signal == Term && m.signals[1].signal == Kill)
    && (m.signals != [] && m.signals[|m.signals| - 1].signal == Kill ==> m.childKilled)
    && (m.escalated <==> m.signals != [] && ByCancel(m.signals[|m.signals| - 1].cause))
    && (m.escalated ==> m.childKilled)
    && forall i :: 0 <= i < |m.signals| ==> Justified(m, groupOk, now, i)
  }

  ghost predicate Justified(m: Main, groupOk: bool, now: nat, i: nat)
    requires i < |m.signals|
  {
    var x := m.signals[i];
    && (x.signal == Term <==> x.cause == CancelTerm)
    && (x.cause == CancelGraceOver ==> i == 1 && x.at >= m.signals[0].at + GRACE_MS)
    && (x.cause == CancelFallback ==> i == 0 && !groupOk)
    && x.group == groupOk && x.at <= now
  }

  lemma ReceivedDisciplined(m: Main, groupOk: bool, t: Turn)
    requires Disciplined(m, groupOk, t.receivedAt)
    ensures Disciplined(Received(m, groupOk, t), groupOk, t.receivedAt)
  {
    var r := Received(m, groupOk, t);
    forall i | 0 <= i < |r.signals| ensures Justified(r, groupOk, t.receivedAt, i) {
      if i < |m.signals| { assert Justified(m, groupOk, t.receivedAt, i); }
    }
  }

  lemma CheckedDisciplined(m: Main, groupOk: bool, t: Turn)
    requires Disciplined(m, groupOk, t.now)
    ensures Disciplined(Checked(m, groupOk, t), groupOk, t.now)
  {
    var r := Checked(m, groupOk, t);
    forall i | 0 <= i < |r.signals| ensures Justified(r, groupOk, t.now, i) {
      if i < |m.signals| { assert Justified(m, groupOk, t.now, i); }
    }
  }

  lemma LaterDisciplined(m: Main, groupOk: bool, now: nat, later: nat)
    requires Disciplined(m, groupOk, now) && now <= later
    ensures Disciplined(m, groupOk, later)
  {
    forall i | 0 <= i < |m.signals| ensures Justified(m, groupOk, later, i) {
      assert Justified(m, groupOk, now, i);
    }
  }

  ghost predicate SignalInv(s: State) {
    Disciplined(s.main, s.groupOk, s.now)
  }

  ghost predicate ReapInv(s: State) {
    && (s.child.Reaped? && InLoop(s.pc) ==> s.main.childKilled)
    && (s.main.writeFailed ==> s.main.childKilled)
    && (s.cancelSeen ==> s.cancel)
    && (s.main.cancelTermed || s.main.escalated ==> s.cancelSeen)
    && (s.pc.Joined? || s.pc.Returned? ==> s.child.Reaped?)
  }

  ghost predicate ResultInv(s: State) {
    s.pc.Returned? ==>
      var m, r := s.main, s.pc.result;
      && (m.writeFailed ==> r.Failed?)
      && (r.Cancelled? ==> s.cancel && !m.writeFailed && r.escalated == m.escalated)
      && (r.Ok? ==> !m.writeFailed && !s.cancelSeen && !m.cancelTermed && !m.escalated)
  }

  lemma StepKeepsSignals(s: State, e: Event, t: State)
    requires SignalInv(s) && Step(s, e, t)
    ensures SignalInv(t)
  {
    if e.Receive? {
      ReceivedDisciplined(s.main, s.groupOk, e.turn);
    } else if e.Check? {
      CheckedDisciplined(s.main, s.groupOk, e.turn);
    } else {
      assert t.main == s.main;
      LaterDisciplined(s.main, s.groupOk, s.now, t.now);
    }
  }

  lemma StepKeepsReap(s: State, e: Event, t: State)
    requires SignalInv(s) && ReapInv(s) && Step(s, e, t)
    ensures ReapInv(t)
  {
    if e.Receive? {
      ReceivedFlags(s.main, s.groupOk, e.turn);
    } else if e.Check? {
      CheckKeepsReap(s, e.turn, t);
    }
  }

  lemma ReceivedFlags(m: Main, groupOk: bool, turn: Turn)
    ensures var r := Received(m, groupOk, turn);
            && (m.childKilled ==> r.childKilled) && (r.writeFailed && !m.writeFailed ==> r.childKilled)
            && r.cancelTermed == m.cancelTermed && r.escalated == m.escalated
  {
  }

  lemma CheckKeepsReap(s: State, turn: Turn, t: State)
    requires SignalInv(s) && ReapInv(s) && Step(s, Check(turn), t)
    ensures ReapInv(t)
  {
  }

  lemma StepKeepsResult(s: State, e: Event, t: State)
    requires ReapInv(s) && ResultInv(s) && Step(s, e, t)
    ensures ResultInv(t)
  {
    if e.Finish? {
      FinishKeepsResult(s, e.cancelSet, e.success, t);
    } else if e.Receive? || e.Check? {
      assert !t.pc.Returned?;
    } else if !e.Wait? {
      assert t.main == s.main;
    }
  }

  lemma FinishKeepsResult(s: State, cancelSet: bool, success: bool, t: State)
    requires ReapInv(s) && Step(s, Finish(cancelSet, success), t)
    ensures ResultInv(t)
  {
  }

  predicate AllLines(msgs: seq<Msg>) {
    forall j :: 0 <= j < |msgs| ==> msgs[j].Line?
  }

  ghost predicate Inv(s: State) {
    && (forall k :: DeliveryInv(s, k)) && AllLines(s.main.written)
    && DoneInv(s) && SignalInv(s) && ReapInv(s) && ResultInv(s)
  }

  lemma StepKeepsInv(s: State, e: Event, t: State)
    requires Inv(s) && Step(s, e, t)
    ensures Inv(t)
  {
    forall k ensures DeliveryInv(t, k) { StepKeepsDelivery(s, e, t, k); }
    assert AllLines(t.main.written) by {
      if e.Receive? {
        ReceivedWrites(s.main, s.groupOk, e.turn);
      } else if e.Check? {
        CheckedWrites(s.main, s.groupOk, e.turn);
      }
    }
    StepKeepsDone(s, e, t);
    StepKeepsSignals(s, e, t);
    StepKeepsReap(s, e, t);
    StepKeepsResult(s, e, t);
  }

  lemma InitInv(s: State)
    requires Init(s)
    ensures Inv(s)
  {
    forall k ensures DeliveryInv(s, k) {
      match k { case Out => case Err => }
    }
  }

  lemma {:induction false} RunInv(states: seq<State>, events: seq<Event>, i: nat)
    requires Run(states, events) && i < |states|
    ensures Inv(states[i])
  {
    if i == 0 {
      InitInv(states[0]);
    } else {
      RunInv(states, events, i - 1);
      assert Step(states[i - 1], events[i - 1], states[i]);
      StepKeepsInv(states[i - 1], events[i - 1], states[i]);
    }
  }

  // ---------------------------------------------------------------------------
  // What holds in every run
  // ---------------------------------------------------------------------------

  /** When the loop has ended without a write failure, both readers have finished and the
      client has got exactly their lines, truncated, each stream in its own order. */
  lemma EveryLineDelivered(states: seq<State>, events: seq<Event>, i: nat)
    requires Run(states, events) && i < |states| && !InLoop(states[i].pc) && !states[i].main.writeFailed
    ensures states[i].finished == {Out, Err}
    ensures forall k :: k in states[i].sent && |OfKind(states[i].main.written, k)| == |states[i].sent[k]|
    ensures forall k, j :: k in states[i].sent && 0 <= j < |states[i].sent[k]| ==>
              OfKind(states[i].main.written, k)[j] == Truncate(states[i].sent[k][j], 65_536)
    ensures |states[i].main.written| == |states[i].sent[Out]| + |states[i].sent[Err]|
  {
    RunInv(states, events, i);
    var s := states[i];
    forall k ensures k in s.sent && OfKind(s.main.written, k) == Truncated(s.sent[k]) {
      assert DeliveryInv(s, k);
      assert OfKind([], k) == [];
    }
    forall k ensures |Truncated(s.sent[k])| == |s.sent[k]|
             ensures forall j :: 0 <= j < |s.sent[k]| ==> Truncated(s.sent[k])[j] == Truncate(s.sent[k][j], 65_536)
    {
      EachTruncated(s.sent[k]);
    }
    KindsPartition(s.main.written);
  }

  lemma ReceivedWrites(m: Main, groupOk: bool, turn: Turn)
    ensures AllLines(m.written) ==> AllLines(Received(m, groupOk, turn).written)
  {
  }

  lemma CheckedWrites(m: Main, groupOk: bool, turn: Turn)
    ensures Checked(m, groupOk, turn).written == m.written
    ensures Checked(m, groupOk, turn).writeFailed == m.writeFailed
    ensures Checked(m, groupOk, turn).doneCount == m.doneCount
  {
  }

  lemma {:induction false} KindsPartition(msgs: seq<Msg>)
    requires AllLines(msgs)
    ensures |msgs| == |OfKind(msgs, Out)| + |OfKind(msgs, Err)|
  {
    if msgs != [] { KindsPartition(msgs[..|msgs| - 1]); }
  }

  lemma {:induction false} EachTruncated(raw: seq<bytes>)
    ensures |Truncated(raw)| == |raw|
    ensures forall j :: 0 <= j < |raw| ==> Truncated(raw)[j] == Truncate(raw[j], 65_536)
  {
    if raw != [] { EachTruncated(raw[..|raw| - 1]); }
  }

  /** The channel never reports disconnection: the second Done always comes first. */
  lemma NeverDisconnected(states: seq<State>, events: seq<Event>, i: nat)
    requires Run(states, events) && i < |events|
    ensures !events[i].Disconnected?
  {
    RunInv(states, events, i);
    assert Step(states[i], events[i], states[i + 1]);
  }

  /** At most one SIGTERM and one SIGKILL, in this order; a SIGKILL for a cancel comes only
      after the grace period or when the group cannot be signalled. */
  lemma SignalDiscipline(states: seq<State>, events: seq<Event>, i: nat)
    requires Run(states, events) && i < |states|
    ensures var signals := states[i].main.signals;
            && (forall a, b :: 0 <= a < b < |signals| ==> signals[a].signal == Term && signals[b].signal == Kill)
            && (forall b :: 0 <= b < |signals| && signals[b].cause == CancelGraceOver ==>
                  exists a :: 0 <= a < b && signals[a].signal == Term && signals[b].at >= signals[a].at + 2_000)
            && (forall b :: 0 <= b < |signals| && signals[b].cause == CancelFallback ==> !states[i].groupOk)
  {
    RunInv(states, events, i);
    var signals := states[i].main.signals;
    forall b | 0 <= b < |signals| && signals[b].cause == CancelGraceOver
      ensures exists a :: 0 <= a < b && signals[a].signal == Term && signals[b].at >= signals[a].at + 2_000
    {
      assert Justified(states[i].main, states[i].groupOk, states[i].now, b);
      assert signals[0].signal == Term;
    }
    forall b | 0 <= b < |signals| && signals[b].cause == CancelFallback ensures !states[i].groupOk {
      assert Justified(states[i].main, states[i].groupOk, states[i].now, b);
    }
  }

  /** Nothing is signalled after the child has been reaped, when its pid may be reused, nor by
      the step that reaps it. */
  lemma NoSignalAfterReap(states: seq<State>, events: seq<Event>, i: nat, j: nat)
    requires Run(states, events) && i <= j < |states| && states[i].child.Reaped?
    ensures states[j].child.Reaped? && states[j].main.signals == states[i].main.signals
    ensures i > 0 ==> states[j].main.signals == states[i - 1].main.signals
  {
    forall k | 0 <= k < |events| ensures QuietOnceReaped(states[k], states[k + 1]) {
      RunInv(states, events, k);
      StepAfterReap(states[k], events[k], states[k + 1]);
    }
    StayQuiet(states, i, j);
    if i > 0 { assert QuietOnceReaped(states[i - 1], states[i - 1 + 1]); }
  }

  predicate QuietOnceReaped(s: State, t: State) {
    && (s.child.Reaped? ==> t.child.Reaped?)
    && (t.child.Reaped? ==> t.main.signals == s.main.signals)
  }

  lemma {:induction false} StayQuiet(states: seq<State>, i: nat, j: nat)
    requires i <= j < |states| && states[i].child.Reaped?
    requires forall k :: 0 <= k < |states| - 1 ==> QuietOnceReaped(states[k], states[k + 1])
    ensures states[j].child.Reaped? && states[j].main.signals == states[i].main.signals
  {
    if i < j {
      StayQuiet(states, i, j - 1);
      assert QuietOnceReaped(states[j - 1], states[j - 1 + 1]);
    }
  }

  lemma StepAfterReap(s: State, e: Event, t: State)
    requires ReapInv(s) && Step(s, e, t)
    ensures QuietOnceReaped(s, t)
  {
    if e.Receive? && s.child.Reaped? {
      assert s.main.childKilled;
    } else if e.Check? && s.child.Reaped? {
      assert Checked(s.main, s.groupOk, e.turn) == s.main;
    } else if e.Check? && t.child.Reaped? {
      assert AsksForExit(s.main, e.turn) && e.turn.exited;
    }
  }

  /** Once the loop has been left nothing is signalled any more: `wait` blocks without
      looking at the flags. */
  lemma {:induction false} NoSignalAfterLoop(states: seq<State>, events: seq<Event>, i: nat, j: nat)
    requires Run(states, events) && i <= j < |states| && !InLoop(states[i].pc)
    ensures !InLoop(states[j].pc) && states[j].main.signals == states[i].main.signals
  {
    if i < j {
      NoSignalAfterLoop(states, events, i, j - 1);
      assert Step(states[j - 1], events[j - 1], states[j]);
    }
  }

  /** A returned `Cancelled` says `escalated` exactly when the cancel path sent a SIGKILL. */
  lemma EscalatedIsTheCancelKill(states: seq<State>, events: seq<Event>, i: nat)
    requires Run(states, events) && i < |states| && states[i].pc.Returned? && states[i].pc.result.Cancelled?
    ensures states[i].pc.result.escalated <==>
            exists x :: x in states[i].main.signals && x.signal == Kill && ByCancel(x.cause)
    ensures states[i].cancel && !states[i].main.writeFailed
  {
    RunInv(states, events, i);
    var m := states[i].main;
    if m.signals != [] { assert m.signals[|m.signals| - 1] in m.signals; }
    forall k | 0 <= k < |m.signals| && ByCancel(m.signals[k].cause) ensures m.escalated {
      assert Justified(m, states[i].groupOk, states[i].now, k);
      assert Justified(m, states[i].groupOk, states[i].now, |m.signals| - 1);
    }
    if m.escalated { assert Justified(m, states[i].groupOk, states[i].now, |m.signals| - 1); }
  }

  /** A cancel that a check of the loop reads as set is answered by then: the child has
      been signalled or is known to be gone.  After the grace period it has been killed
      or has exited. */
  lemma CancelIsAnswered(states: seq<State>, events: seq<Event>, i: nat)
    requires Run(states, events) && i < |events| && events[i].Check? && events[i].turn.cancel
    ensures var m := states[i + 1].main;
            && (m.childKilled || (m.cancelTermed && |m.signals| == 1 && m.signals[0].signal == Term))
            && (m.signals != [] && m.signals[0].signal == Term && states[i].now >= m.signals[0].at + 2_000 ==> m.childKilled)
  {
    RunInv(states, events, i);
    RunInv(states, events, i + 1);
    assert Step(states[i], events[i], states[i + 1]);
  }

  /** A check that reads the shutdown flag as set leaves a child that was killed, is gone,
      or has a cancel's grace period running. */
  lemma ShutdownIsAnswered(states: seq<State>, events: seq<Event>, i: nat)
    requires Run(states, events) && i < |events| && events[i].Check? && events[i].turn.shutdown
    ensures var t := states[i + 1];
            t.main.cancelTermed || (t.main.childKilled && (t.child.Reaped? || HasKill(t.main)))
  {
    assert Step(states[i], events[i], states[i + 1]);
    if states[i + 1].main.childKilled { KilledForAReason(states, events, i + 1); }
  }

  /** While the loop runs, `childKilled` holds exactly when a SIGKILL was sent or the child
      was reaped; a lost client means no less. */
  lemma KilledForAReason(states: seq<State>, events: seq<Event>, i: nat)
    requires Run(states, events) && i < |states|
    ensures states[i].main.childKilled || states[i].main.writeFailed ==> states[i].child.Reaped? || HasKill(states[i].main)
    ensures HasKill(states[i].main) || (InLoop(states[i].pc) && states[i].child.Reaped?) ==> states[i].main.childKilled
    ensures states[i].main.writeFailed ==> states[i].main.childKilled
  {
    RunInv(states, events, i);
    if states[i].main.childKilled { KilledSince(states, events, i); }
  }

  lemma {:induction false} KilledSince(states: seq<State>, events: seq<Event>, i: nat)
    requires Run(states, events) && i < |states| && states[i].main.childKilled
    ensures states[i].child.Reaped? || HasKill(states[i].main)
  {
    if i > 0 {
      StepToKilled(states[i - 1], events[i - 1], states[i]);
      if states[i - 1].main.childKilled { KilledSince(states, events, i - 1); }
    }
  }

  predicate HasKill(m: Main) {
    exists i :: 0 <= i < |m.signals| && m.signals[i].signal == Kill
  }

  lemma ReceivedKills(m: Main, groupOk: bool, t: Turn)
    ensures m.childKilled ==> Received(m, groupOk, t).signals == m.signals
    ensures !m.childKilled && Received(m, groupOk, t).childKilled ==> HasKill(Received(m, groupOk, t))
  {
    var r := Received(m, groupOk, t);
    if !m.childKilled && r.childKilled { assert r.signals[|m.signals|].signal == Kill; }
  }

  lemma CheckedKills(m: Main, groupOk: bool, t: Turn)
    ensures m.childKilled ==> Checked(m, groupOk, t) == m
    ensures !m.childKilled && Checked(m, groupOk, t).childKilled ==>
              HasKill(Checked(m, groupOk, t)) || (AsksForExit(m, t) && t.exited)
  {
    var r := Checked(m, groupOk, t);
    if |r.signals| > |m.signals| { assert r.signals[|m.signals|] in r.signals; }
  }

  lemma StepToKilled(s: State, e: Event, t: State)
    requires Step(s, e, t) && t.main.childKilled
    ensures s.main.childKilled && (s.child.Reaped? || HasKill(s.main)) ==> t.child.Reaped? || HasKill(t.main)
    ensures !s.main.childKilled ==> t.child.Reaped? || HasKill(t.main)
  {
    if e.Receive? {
      ReceivedKills(s.main, s.groupOk, e.turn);
    } else if e.Check? {
      CheckedKills(s.main, s.groupOk, e.turn);
    } else {
      assert t.main == s.main;
    }
  }

  // ---------------------------------------------------------------------------
  // Which event sends which signal
  // ---------------------------------------------------------------------------

  predicate LosesClient(e: Event) {
    e.Receive? && e.turn.msg.Some? && e.turn.msg.value.Line? && !e.turn.writeOk
  }

  /** In state `s` event `e` has to send `x`. */
  predicate Sends(s: State, e: Event, x: Sent) {
    && x.at == s.now && x.group == s.groupOk && !s.main.childKilled
    && (x.signal == Term <==> x.cause == CancelTerm)
    && var soFar := s.main.signals;
       match x.cause
       case BrokenPipe => LosesClient(e) && !s.main.writeFailed
       case CancelTerm => e.Check? && e.turn.cancel && soFar == [] && s.groupOk
       case CancelFallback => e.Check? && e.turn.cancel && soFar == [] && !s.groupOk
       case CancelGraceOver => e.Check? && !e.turn.exited && soFar != [] && s.now >= soFar[0].at + 2_000
       case Shutdown => e.Check? && e.turn.shutdown && !e.turn.cancel && soFar == []
  }

  /** An event sends a signal exactly when it has to, and never two: the first write that
      fails sends SIGKILL at once; a check that reads the token answers with SIGTERM to the
      group, or SIGKILL to a leader without one; 2 s later a check that finds the child
      running sends SIGKILL; a check that reads only the shutdown flag sends SIGKILL. */
  lemma SignalsHaveTheirEvents(states: seq<State>, events: seq<Event>, i: nat, x: Sent)
    requires Run(states, events) && i < |events|
    ensures states[i + 1].main.signals == states[i].main.signals + [x] <==> Sends(states[i], events[i], x)
    ensures states[i + 1].main.signals == states[i].main.signals || exists y :: Sends(states[i], events[i], y)
    ensures Sends(states[i], events[i], x) && x.signal == Kill ==> states[i + 1].main.childKilled
  {
    RunInv(states, events, i);
    var s, e, t := states[i], events[i], states[i + 1];
    assert Step(s, e, t);
    StepSends(s, e, t);
    if y :| Sends(s, e, y) && t.main.signals == s.main.signals + [y] {
      assert t.main.signals[|s.main.signals|] == y;
    } else {
      assert |t.main.signals| == |s.main.signals|;
    }
  }

  lemma StepSends(s: State, e: Event, t: State)
    requires SignalInv(s) && Step(s, e, t)
    ensures (t.main.signals == s.main.signals && forall y :: !Sends(s, e, y))
         || exists y :: Sends(s, e, y) && t.main.signals == s.main.signals + [y]
    ensures forall y, z :: Sends(s, e, y) && Sends(s, e, z) ==> y == z
  {
    if e.Receive? {
      ReceiveSends(s, e.turn, t);
    } else if e.Check? {
      CheckSends(s, e.turn, t);
    }
  }

  lemma ReceiveSends(s: State, turn: Turn, t: State)
    requires SignalInv(s) && Step(s, Receive(turn), t)
    ensures (t.main.signals == s.main.signals && forall y :: !Sends(s, Receive(turn), y))
         || exists y :: Sends(s, Receive(turn), y) && t.main.signals == s.main.signals + [y]
  {
    if LosesClient(Receive(turn)) && !s.main.writeFailed && !s.main.childKilled {
      assert Sends(s, Receive(turn), Sent(Kill, s.groupOk, BrokenPipe, s.now));
    }
  }

  lemma CheckSends(s: State, turn: Turn, t: State)
    requires SignalInv(s) && Step(s, Check(turn), t)
    ensures (t.main.signals == s.main.signals && forall y :: !Sends(s, Check(turn), y))
         || exists y :: Sends(s, Check(turn), y) && t.main.signals == s.main.signals + [y]
  {
    if |t.main.signals| > |s.main.signals| {
      var y := t.main.signals[|s.main.signals|];
      assert Sends(s, Check(turn), y);
      assert t.main.signals == s.main.signals + [y];
    }
  }

  /** The client counts as lost from the first write that fails on.  The child is reaped by
      `wait`, or by a check that finds it gone after a SIGTERM and before any SIGKILL. */
  lemma FlagsHaveTheirEvents(states: seq<State>, events: seq<Event>, i: nat)
    requires Run(states, events) && i < |events|
    ensures states[i + 1].main.writeFailed <==> states[i].main.writeFailed || LosesClient(events[i])
    ensures states[i + 1].child.Reaped? <==>
            || states[i].child.Reaped? || events[i].Wait?
            || (events[i].Check? && events[i].turn.exited && !states[i].main.childKilled && states[i].main.signals != [])
  {
    RunInv(states, events, i);
    assert Step(states[i], events[i], states[i + 1]);
    StepLosesClient(states[i], events[i], states[i + 1]);
    StepReaps(states[i], events[i], states[i + 1]);
  }

  lemma StepLosesClient(s: State, e: Event, t: State)
    requires Step(s, e, t)
    ensures t.main.writeFailed <==> s.main.writeFailed || LosesClient(e)
  {
    if e.Check? {
      CheckedWrites(s.main, s.groupOk, e.turn);
    } else if !e.Receive? {
      assert t.main == s.main;
    }
  }

  lemma StepReaps(s: State, e: Event, t: State)
    requires SignalInv(s) && Step(s, e, t)
    ensures t.child.Reaped? <==>
            || s.child.Reaped? || e.Wait? || (e.Check? && e.turn.exited && !s.main.childKilled && s.main.signals != [])
  {
    if e.Check? { CheckReaps(s, e.turn, t); }
  }

  lemma CheckReaps(s: State, turn: Turn, t: State)
    requires SignalInv(s) && Step(s, Check(turn), t)
    ensures t.child.Reaped? <==> s.child.Reaped? || (turn.exited && !s.main.childKilled && s.main.signals != [])
  {
    assert AsksForExit(s.main, turn) <==> !s.main.childKilled && s.main.signals != [];
  }

  /** What a run returns, read off its signals and the child's exit: the lost client first,
      then the cancel, then the exit code. */
  lemma ReturnedResult(states: seq<State>, events: seq<Event>, i: nat)
    requires Run(states, events) && i < |events| && (events[i].Finish? || events[i].Wait?)
    ensures events[i].Wait? && !events[i].ok ==> states[i + 1].pc == Returned(Failed("failed to wait for child"))
    ensures events[i].Finish? ==>
              && states[i + 1].pc.Returned?
              && var m, r := states[i].main, states[i + 1].pc.result;
                 if m.writeFailed then r == Failed("stream write failed: client disconnected")
                 else if events[i].cancelSet then
                   r == Cancelled(exists x :: x in m.signals && (x.cause == CancelGraceOver || x.cause == CancelFallback))
                 else if events[i].success then r == Ok
                 else if m.childKilled then r == Failed("exit code (killed due to SIGTERM)")
                 else r == Failed("exit code")
  {
    assert Step(states[i], events[i], states[i + 1]);
    if events[i].Finish? && states[i + 1].pc.result.Cancelled? {
      EscalatedIsTheCancelKill(states, events, i + 1);
      forall x | x in states[i].main.signals && ByCancel(x.cause) ensures x.signal == Kill {
        RunInv(states, events, i);
        var k :| 0 <= k < |states[i].main.signals| && states[i].main.signals[k] == x;
        assert Justified(states[i].main, states[i].groupOk, states[i].now, k);
      }
    }
  }

  // ---------------------------------------------------------------------------
  // The loop of `StreamLoop.Run` is the loop of the machine
  // ---------------------------------------------------------------------------

  /** The turns a run has taken: a check completes the turn that its receive began. */
  function TurnsOf(events: seq<Event>): seq<Turn> {
    if events == [] then []
    else
      var before, e := TurnsOf(events[..|events| - 1]), events[|events| - 1];
      if e.Receive? then before + [e.turn]
      else if e.Check? && before != [] then before[|before| - 1 := Merged(before[|before| - 1], e.turn)]
      else before
  }

  /** Outside a turn the loop variables are what `StreamLoop.Run` makes of the turns so far,
      in every interleaving. */
  lemma LoopRunsItsTurns(states: seq<State>, events: seq<Event>, i: nat)
    requires Run(states, events) && i < |states| && !states[i].pc.Checking?
    ensures states[i].main == Turns(START, states[i].groupOk, TurnsOf(events[..i]))
  {
    LoopSoFar(states, events, i);
  }

  ghost predicate InTurns(s: State, turns: seq<Turn>) {
    if s.pc.Checking? then
      && turns != []
      && var n := |turns| - 1;
         && Turns(START, s.groupOk, turns[..n]).doneCount < 2
         && s.main == Received(Turns(START, s.groupOk, turns[..n]), s.groupOk, turns[n])
    else s.main == Turns(START, s.groupOk, turns)
  }

  lemma {:induction false} LoopSoFar(states: seq<State>, events: seq<Event>, i: nat)
    requires Run(states, events) && i < |states|
    ensures InTurns(states[i], TurnsOf(events[..i]))
  {
    if i > 0 {
      LoopSoFar(states, events, i - 1);
      RunInv(states, events, i - 1);
      assert events[..i][..i - 1] == events[..i - 1];
      assert Step(states[i - 1], events[i - 1], states[i]);
      TurnStep(states[i - 1], events[i - 1], states[i], events[..i]);
    }
  }

  lemma {:induction false} TurnStep(s: State, e: Event, t: State, events: seq<Event>)
    requires DoneInv(s) && Step(s, e, t) && events != [] && events[|events| - 1] == e
    requires InTurns(s, TurnsOf(events[..|events| - 1]))
    ensures InTurns(t, TurnsOf(events))
  {
    var before := TurnsOf(events[..|events| - 1]);
    if e.Receive? {
      ReceiveBegins(s, e.turn, t, before);
    } else if e.Check? {
      CheckCompletes(s, e.turn, t, before);
    } else {
      assert t.main == s.main && TurnsOf(events) == before;
    }
  }

  lemma {:induction false} ReceiveBegins(s: State, turn: Turn, t: State, before: seq<Turn>)
    requires DoneInv(s) && Step(s, Receive(turn), t) && InTurns(s, before)
    ensures InTurns(t, before + [turn])
  {
    assert (before + [turn])[..|before|] == before;
    TurnsSnoc(START, s.groupOk, before, turn);
  }

  lemma {:induction false} CheckCompletes(s: State, turn: Turn, t: State, before: seq<Turn>)
    requires DoneInv(s) && Step(s, Check(turn), t) && InTurns(s, before)
    ensures before != [] && InTurns(t, before[|before| - 1 := Merged(before[|before| - 1], turn)])
  {
    var n := |before| - 1;
    var whole := Merged(before[n], turn);
    var m := Turns(START, s.groupOk, before[..n]);
    assert before[n := whole] == before[..n] + [whole];
    HalvesOfTurn(m, Received(m, s.groupOk, before[n]), s.groupOk, before[n], turn);
    TurnsSnoc(START, s.groupOk, before[..n], whole);
  }

  /** Each half of a turn looks at its own part of it. */
  lemma HalvesOfTurn(m: Main, r: Main, groupOk: bool, receive: Turn, check: Turn)
    ensures Received(m, groupOk, Merged(receive, check)) == Received(m, groupOk, receive)
    ensures Checked(r, groupOk, Merged(receive, check)) == Checked(r, groupOk, check)
  {
  }

  lemma {:induction false} TurnsSnoc(m: Main, groupOk: bool, turns: seq<Turn>, t: Turn)
    ensures var n, r := Turns(m, groupOk, turns), Received(Turns(m, groupOk, turns), groupOk, t);
            Turns(m, groupOk, turns + [t]) ==
            if n.doneCount >= 2 then n else if r.doneCount >= 2 then r else Checked(r, groupOk, t)
    decreases |turns|
  {
    if turns == [] {
      assert turns + [t] == [t] && [t][1..] == [];
    } else {
      assert (turns + [t])[1..] == turns[1..] + [t];
      var r := Received(m, groupOk, turns[0]);
      if m.doneCount < 2 && r.doneCount < 2 {
        TurnsSnoc(Checked(r, groupOk, turns[0]), groupOk, turns[1..], t);
      }
    }
  }
}
