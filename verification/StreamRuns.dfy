/**
 Two complete runs of the streaming loop: one in which a cancelled write loses its client,
 one in which the flags come after the loop.
 */
module StreamRuns {
  import opened Prelude
  import opened Utf8
  import opened Streaming

  lemma Extend(states: seq<State>, events: seq<Event>, e: Event, t: State)
    returns (states': seq<State>, events': seq<Event>)
    requires Run(states, events) && Step(states[|events|], e, t)
    ensures states' == states + [t] && events' == events + [e] && Run(states', events')
  {
    states', events' := states + [t], events + [e];
    forall i | 0 <= i < |events'| ensures Step(states'[i], events'[i], states'[i + 1]) {
      if i < |events| { assert Step(states[i], events[i], states[i + 1]); }
    }
  }

  const GONE := Main(0, true, true, false, None, false, [], [Sent(Kill, true, BrokenPipe, 0)])

  /** The token is set, and the first line meets a closed socket. */
  lemma WriteFails() returns (states: seq<State>, events: seq<Event>)
    ensures Run(states, events)
    ensures states[|events|] == State(GONE, Receiving, true, [], map[Out := [[]], Err := []], {}, Alive, true, false, false, 0)
  {
    var raw: bytes := [];
    var turn := Turn(Some(Line(Out, raw)), false, 0, true, false, false, 0);
    var a := State(START, Receiving, true, [], map[Out := [], Err := []], {}, Alive, false, false, false, 0);
    assert Init(a);
    var b := a.(cancel := true);
    states, events := Extend([a], [], SetCancel, b);
    var none: seq<bytes> := [];
    assert none + [raw] == [raw];
    var c := b.(channel := [Line(Out, raw)], sent := map[Out := [raw], Err := none]);
    assert Truncate(raw, MAX_LINE_LEN) == raw;
    assert b.sent[Out := b.sent[Out] + [raw]] == c.sent;
    states, events := Extend(states, events, ReadLine(Out, raw), c);
    var d := c.(main := GONE, channel := [], pc := Checking);
    states, events := Extend(states, events, Receive(turn), d);
    states, events := Extend(states, events, Check(turn), d.(pc := Receiving));
  }

  /** The loop then drains both streams, waits, and reports the write failure: the set
      token does not turn it into Cancelled. */
  lemma DisconnectedRun() returns (states: seq<State>, events: seq<Event>)
    ensures Run(states, events) && |events| > 0
    ensures events[|events| - 1] == Finish(true, false)
    ensures states[|events|].pc == Returned(Failed("stream write failed: client disconnected")) && states[|events|].cancel
  {
    states, events := StreamsEnd();
    var s := states[|events|];
    var turn := Turn(Some(Done), true, 0, true, false, false, 0);
    var f := s.(main := GONE.(doneCount := 2), channel := [], pc := Waiting);
    states, events := Extend(states, events, Receive(turn), f);
    var g := f.(child := Reaped, pc := Joined);
    states, events := Extend(states, events, Wait(true), g);
    var h := g.(pc := Returned(FinalResult(g.main, true, false)));
    states, events := Extend(states, events, Finish(true, false), h);
  }

  lemma StreamsEnd() returns (states: seq<State>, events: seq<Event>)
    ensures Run(states, events)
    ensures states[|events|] == State(GONE.(doneCount := 1), Receiving, true, [Done], map[Out := [[]], Err := []], {Out, Err},
                                      Exited, true, false, false, 0)
  {
    states, events := WriteFails();
    var s := states[|events|];
    var turn := Turn(Some(Done), true, 0, true, false, false, 0);
    var a := s.(channel := [Done], finished := {Out});
    states, events := Extend(states, events, ReadEnd(Out), a);
    var b := a.(channel := [Done, Done], finished := {Out, Err});
    states, events := Extend(states, events, ReadEnd(Err), b);
    var c := b.(child := Exited);
    states, events := Extend(states, events, ChildExits, c);
    var d := c.(main := GONE.(doneCount := 1), channel := [Done], pc := Checking);
    states, events := Extend(states, events, Receive(turn), d);
    states, events := Extend(states, events, Check(turn), d.(pc := Receiving));
  }

  /** Both pipes are closed while the child lives on: the loop ends, both flags are set
      afterwards, and the helper waits for the child without a signal to it. */
  lemma UnpolledRun() returns (states: seq<State>, events: seq<Event>)
    ensures Run(states, events)
    ensures var s := states[|events|];
            s.pc == Waiting && s.child == Alive && s.cancel && s.shutdown && s.main.signals == []
  {
    states, events := BothPipesClose();
    var s := states[|events|];
    var turn := Turn(Some(Done), true, 0, false, false, false, 0);
    var a := s.(main := START.(doneCount := 2), channel := [], pc := Waiting);
    states, events := Extend(states, events, Receive(turn), a);
    var b := a.(cancel := true);
    states, events := Extend(states, events, SetCancel, b);
    states, events := Extend(states, events, SetShutdown, b.(shutdown := true));
  }

  lemma BothPipesClose() returns (states: seq<State>, events: seq<Event>)
    ensures Run(states, events)
    ensures states[|events|] == State(START.(doneCount := 1), Receiving, true, [Done], map[Out := [], Err := []], {Out, Err},
                                      Alive, false, false, false, 0)
  {
    var turn := Turn(Some(Done), true, 0, false, false, false, 0);
    var a := State(START, Receiving, true, [], map[Out := [], Err := []], {}, Alive, false, false, false, 0);
    assert Init(a);
    var b := a.(channel := [Done], finished := {Out});
    states, events := Extend([a], [], ReadEnd(Out), b);
    var c := b.(channel := [Done, Done], finished := {Out, Err});
    states, events := Extend(states, events, ReadEnd(Err), c);
    var d := c.(main := START.(doneCount := 1), channel := [Done], pc := Checking);
    states, events := Extend(states, events, Receive(turn), d);
    states, events := Extend(states, events, Check(turn), d.(pc := Receiving));
  }
}
