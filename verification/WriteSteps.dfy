/** The write commands as sequences of streamed children under a cancel (`commands.rs`). */
module WriteSteps {
  import opened Prelude
  import Streaming
  import StreamRuns
  import WriteSlot
  import opened Ports
  import opened Commands

  // `cmd_rebuild`, `cmd_rebuild_all`, `cmd_deploy` and `cmd_teardown` start one child after
  // the other; a cancel may arrive at any moment.  The methods of `Session` run the commands
  // step by step; `RunPlan` is the meaning of a list of steps.

  /** One streamed child: what its loop ended with, and when it was started and its cancel
      token read for the last time. */
  datatype ChildRun = ChildRun(
    spawned: bool,
    main: Streaming.Main,
    waitOk: bool,
    success: bool,
    startedAt: nat,
    checkedAt: nat)

  /** The children in the order they are started, and the moment the token is set. */
  datatype Env = Env(child: nat -> ChildRun, cancelAt: Option<nat>)

  predicate TokenSet(env: Env, at: nat) {
    env.cancelAt.Some? && env.cancelAt.value <= at
  }

  function ChildResult(env: Env, k: nat): Outcome {
    var c := env.child(k);
    if !c.spawned then Failed("failed to execute")
    else if !c.waitOk then Failed("failed to wait for child")
    else Streaming.FinalResult(c.main, TokenSet(env, c.checkedAt), c.success)
  }

  datatype Trace = Trace(result: Outcome, started: seq<string>)

  function RunPlan(env: Env, k: nat, plan: seq<Item>): Trace
    decreases |plan|
  {
    if plan == [] then Trace(Ok, [])
    else match plan[0]
      case Local(d, ok) => if ok then RunPlan(env, k, plan[1..]) else Trace(Failed(d), [])
      case Child(d) =>
        var r := ChildResult(env, k);
        if r != Ok then Trace(r, [d])
        else
          var rest := RunPlan(env, k + 1, plan[1..]);
          Trace(rest.result, [d] + rest.started)
  }

  // ---------------------------------------------------------------------------
  // The commands
  // ---------------------------------------------------------------------------

  /** After the children `before`, those of `commands` are started in order, each once all
      before it have ended Ok, until one does not; `r` is the result of the last. */
  ghost predicate Follows(env: Env, before: seq<string>, commands: seq<string>, r: Outcome, after: seq<string>) {
    && before <= after <= before + commands
    && (forall k: nat :: |before| <= k < |after| - 1 ==> ChildResult(env, k) == Ok)
    && (after != before ==> r == ChildResult(env, |after| - 1))
    && (r == Ok ==> after == before + commands)
    && (r != Ok ==> after != before)
  }

  /** Running `plan` after the children `before` ends with `r` and the children `after`. */
  ghost predicate Does(env: Env, before: seq<string>, plan: seq<Item>, r: Outcome, after: seq<string>) {
    var t := RunPlan(env, |before|, plan);
    r == t.result && after == before + t.started
  }

  class Session {
    const env: Env
    var started: seq<string>

    constructor (env: Env)
      ensures this.env == env && started == []
    {
      this.env := env;
      started := [];
    }

    method RunStreaming(description: string) returns (r: Outcome)
      modifies this
      ensures Does(env, old(started), [Child(description)], r, started)
      ensures !env.child(|old(started)|).spawned ==> r == Failed("failed to execute")
      ensures r == ChildResult(env, |old(started)|) && started == old(started) + [description]
    {
      OneChild(env, |started|, description);
      r := ChildResult(env, |started|);
      started := started + [description];
    }

    method LoadImageToKind(runtime: Runtime, tag: string) returns (r: Outcome)
      modifies this
      ensures Does(env, old(started), LoadPlan(runtime, tag), r, started)
      ensures Follows(env, old(started), LoadCommands(runtime, tag), r, started)
    {
      LoadDescriptions(runtime, tag);
      match runtime {
        case Podman =>
          ghost var save, load := [Child("podman save " + tag)], [Child("kind load image-archive")];
          assert LoadPlan(Podman, tag) == save + load;
          r := RunStreaming("podman save " + tag);
          if r != Ok {
            Stop(env, old(started), save, r, started, load);
            PlanFollows(env, old(started), LoadPlan(runtime, tag), r, started);
            return;
          }
          ghost var saved := started;
          r := RunStreaming("kind load image-archive");
          Chain(env, old(started), save, saved, load, r, started);
        case Docker =>
          r := RunStreaming("kind load docker-image");
      }
      PlanFollows(env, old(started), LoadPlan(runtime, tag), r, started);
    }

    method RestartDeployment(svc: Service) returns (r: Outcome)
      modifies this
      ensures Does(env, old(started), RestartPlan(svc), r, started)
      ensures Follows(env, old(started), RestartCommands(svc), r, started)
    {
      var restart := "kubectl rollout restart ";
      match svc {
        case Ac =>
          r := RunStreaming(restart + "ac-service");
        case Gc =>
          r := RunStreaming(restart + "gc-service");
        case Mc =>
          r := RestartBoth(restart + "mc-0", restart + "mc-1");
        case Mh =>
          r := RestartBoth(restart + "mh-0", restart + "mh-1");
      }
      RestartDescriptions(svc);
      PlanFollows(env, old(started), RestartPlan(svc), r, started);
    }

    method RestartBoth(first: string, second: string) returns (r: Outcome)
      modifies this
      ensures Does(env, old(started), [Child(first), Child(second)], r, started)
    {
      assert [Child(first), Child(second)] == [Child(first)] + [Child(second)];
      r := RunStreaming(first);
      if r != Ok {
        Stop(env, old(started), [Child(first)], r, started, [Child(second)]);
        return;
      }
      ghost var one := started;
      r := RunStreaming(second);
      Chain(env, old(started), [Child(first)], one, [Child(second)], r, started);
    }

    method Rebuild(runtime: Runtime, svc: Service) returns (r: Outcome)
      modifies this
      ensures Does(env, old(started), RebuildPlan(runtime, svc), r, started)
      ensures Follows(env, old(started), RebuildCommands(runtime, svc), r, started)
    {
      ghost var build := [Child(RuntimeName(runtime) + " build " + ServiceName(svc))];
      ghost var load, restart := LoadPlan(runtime, ImageTag(svc)), RestartPlan(svc);
      r := RunStreaming(RuntimeName(runtime) + " build " + ServiceName(svc));
      if r != Ok {
        Stop(env, old(started), build, r, started, load);
        Stop(env, old(started), build + load, r, started, restart);
        RebuildFollows(env, old(started), runtime, svc, r, started);
        return;
      }
      ghost var built := started;
      r := LoadImageToKind(runtime, ImageTag(svc));
      Chain(env, old(started), build, built, load, r, started);
      if r != Ok {
        Stop(env, old(started), build + load, r, started, restart);
        RebuildFollows(env, old(started), runtime, svc, r, started);
        return;
      }
      ghost var loaded := started;
      r := RestartDeployment(svc);
      Chain(env, old(started), build + load, loaded, restart, r, started);
      RebuildFollows(env, old(started), runtime, svc, r, started);
    }

    method RebuildAll(runtime: Runtime) returns (r: Outcome)
      modifies this
      ensures Does(env, old(started), RebuildAllPlan(runtime, ALL_SERVICES), r, started)
      ensures Follows(env, old(started), Rebuilds(runtime, [Ac, Gc, Mc, Mh]), r, started)
    {
      RebuildAllDescriptions(runtime, ALL_SERVICES);
      r := Ok;
      ghost var all := ALL_SERVICES;
      for i := 0 to |ALL_SERVICES|
        invariant r == Ok && Does(env, old(started), RebuildAllPlan(runtime, all[..i]), Ok, started)
      {
        ghost var here := started;
        r := Rebuild(runtime, ALL_SERVICES[i]);
        PlanGrows(runtime, all, i);
        Chain(env, old(started), RebuildAllPlan(runtime, all[..i]), here, RebuildPlan(runtime, all[i]), r, started);
        if r != Ok {
          StopsBeforeAll(env, |old(started)|, runtime, all, i + 1);
          PlanFollows(env, old(started), RebuildAllPlan(runtime, all), r, started);
          return;
        }
      }
      assert all[..|all|] == all;
      PlanFollows(env, old(started), RebuildAllPlan(runtime, all), r, started);
    }

    method Deploy(svc: Service, gatewayOk: bool) returns (r: Outcome)
      modifies this
      ensures Does(env, old(started), DeployPlan(svc, gatewayOk), r, started)
      ensures !gatewayOk ==> r == Failed("host-gateway-ip") && started == old(started)
      ensures gatewayOk ==> Follows(env, old(started), [DeployCommand(svc)], r, started)
    {
      ghost var child := [Child("setup.sh --skip-build --only " + ServiceName(svc))];
      assert DeployPlan(svc, gatewayOk)[1..] == child;
      if !gatewayOk {
        return Failed("host-gateway-ip");
      }
      DeployText(svc);
      DescribeTwo(DeployCommand(svc), "");
      r := RunStreaming("setup.sh --skip-build --only " + ServiceName(svc));
      PlanFollows(env, old(started), [Child(DeployCommand(svc))], r, started);
    }

    /** `cmd_teardown`: any error but a cancel of the cluster deletion is swallowed. */
    method Teardown(registry: RegistryFile, slug: bytes, deallocationOk: bool) returns (r: Outcome)
      modifies this, registry
      ensures started == old(started) + ["kind delete cluster"]
      ensures (r, registry.entries) ==
              AfterTeardown(env, |old(started)|, old(registry.entries), slug, deallocationOk)
    {
      r := RunStreaming("kind delete cluster");
      r := Propagated(r);
      if r.Cancelled? {
        return;
      }
      if deallocationOk {
        registry.DeallocatePorts(slug);
      }
    }
  }

  /** `propagate_teardown_kind_result` */
  function Propagated(r: Outcome): Outcome {
    if r.Cancelled? then r else Ok
  }

  /** Result and registry after a teardown. */
  function AfterTeardown(env: Env, k: nat, entries: seq<Entry>, slug: bytes, deallocationOk: bool): (Outcome, seq<Entry>) {
    var r := Propagated(ChildResult(env, k));
    (r, if r.Cancelled? || !deallocationOk then entries else Without(entries, slug))
  }

  // ---------------------------------------------------------------------------
  // Plans compose
  // ---------------------------------------------------------------------------

  lemma {:induction false} Then(env: Env, k: nat, a: seq<Item>, b: seq<Item>)
    ensures var x := RunPlan(env, k, a);
            RunPlan(env, k, a + b) ==
            if x.result != Ok then x
            else var y := RunPlan(env, k + |x.started|, b); Trace(y.result, x.started + y.started)
    decreases |a|
  {
    if a == [] {
      assert a + b == b;
    } else {
      assert (a + b)[1..] == a[1..] + b;
      match a[0] {
        case Local(_, ok) =>
          if ok { Then(env, k, a[1..], b); }
        case Child(_) =>
          if ChildResult(env, k) == Ok { Then(env, k + 1, a[1..], b); }
      }
    }
  }

  lemma OneChild(env: Env, k: nat, d: string)
    ensures RunPlan(env, k, [Child(d)]) == Trace(ChildResult(env, k), [d])
  {
    assert [Child(d)][1..] == [];
  }

  lemma Chain(env: Env, before: seq<string>, a: seq<Item>, mid: seq<string>, b: seq<Item>, r: Outcome, after: seq<string>)
    requires Does(env, before, a, Ok, mid) && Does(env, mid, b, r, after)
    ensures Does(env, before, a + b, r, after)
  {
    Then(env, |before|, a, b);
    var x, y := RunPlan(env, |before|, a), RunPlan(env, |mid|, b);
    assert before + (x.started + y.started) == before + x.started + y.started;
  }

  lemma Stop(env: Env, before: seq<string>, a: seq<Item>, r: Outcome, after: seq<string>, b: seq<Item>)
    requires Does(env, before, a, r, after) && r != Ok
    ensures Does(env, before, a + b, r, after)
  {
    Then(env, |before|, a, b);
  }

  /** A plan of children only starts their commands. */
  lemma {:induction false} PlanFollows(env: Env, before: seq<string>, plan: seq<Item>, r: Outcome, after: seq<string>)
    requires Does(env, before, plan, r, after) && forall item :: item in plan ==> item.Child?
    ensures Follows(env, before, Descriptions(plan), r, after)
    decreases |plan|
  {
    if plan != [] {
      assert plan[0] in plan;
      var first := before + [plan[0].description];
      assert Descriptions(plan) == [plan[0].description] + Descriptions(plan[1..]);
      assert before + Descriptions(plan) == first + Descriptions(plan[1..]);
      if ChildResult(env, |before|) == Ok {
        var rest := RunPlan(env, |before| + 1, plan[1..]);
        assert before + ([plan[0].description] + rest.started) == first + rest.started;
        PlanFollows(env, first, plan[1..], r, after);
      }
    }
  }

  lemma RebuildFollows(env: Env, before: seq<string>, runtime: Runtime, s: Service, r: Outcome, after: seq<string>)
    requires Does(env, before, RebuildPlan(runtime, s), r, after)
    ensures Follows(env, before, RebuildCommands(runtime, s), r, after)
  {
    RebuildDescriptions(runtime, s);
    PlanFollows(env, before, RebuildPlan(runtime, s), r, after);
  }

  lemma {:induction false} StopsBeforeAll(env: Env, k: nat, r: Runtime, services: seq<Service>, i: nat)
    requires i <= |services| && RunPlan(env, k, RebuildAllPlan(r, services[..i])).result != Ok
    ensures RunPlan(env, k, RebuildAllPlan(r, services)) == RunPlan(env, k, RebuildAllPlan(r, services[..i]))
    decreases |services| - i
  {
    if i == |services| {
      assert services[..i] == services;
    } else {
      PlanGrows(r, services, i);
      Then(env, k, RebuildAllPlan(r, services[..i]), RebuildPlan(r, services[i]));
      StopsBeforeAll(env, k, r, services, i + 1);
    }
  }

  // ---------------------------------------------------------------------------
  // What success means
  // ---------------------------------------------------------------------------

  /** The child ran to its end with exit code zero, the client stayed connected, and no
      look at the token found it set. */
  ghost predicate Clean(env: Env, k: nat) {
    var c := env.child(k);
    c.spawned && c.waitOk && c.success && !c.main.writeFailed && !TokenSet(env, c.checkedAt)
  }

  ghost predicate AllClean(env: Env, k: nat, plan: seq<Item>) {
    && (forall item :: item in plan && item.Local? ==> item.ok)
    && (forall j: nat :: k <= j < k + |Descriptions(plan)| ==> Clean(env, j))
  }

  /** Children are started in the order of the plan, without gaps; the command succeeds
      exactly when all of them end well, and then all were started. */
  lemma {:induction false} SuccessIffAllClean(env: Env, k: nat, plan: seq<Item>)
    ensures RunPlan(env, k, plan).started <= Descriptions(plan)
    ensures RunPlan(env, k, plan).result == Ok <==> AllClean(env, k, plan)
    ensures RunPlan(env, k, plan).result == Ok ==> RunPlan(env, k, plan).started == Descriptions(plan)
    decreases |plan|
  {
    if plan != [] {
      var rest := plan[1..];
      match plan[0] {
        case Local(_, _) =>
          SuccessIffAllClean(env, k, rest);
          assert plan == [plan[0]] + plan[1..];
          assert plan[0] in plan;
        case Child(_) =>
          SuccessIffAllClean(env, k + 1, rest);
          ChildFirst(env, k, plan);
      }
    }
  }

  lemma ChildFirst(env: Env, k: nat, plan: seq<Item>)
    requires plan != [] && plan[0].Child?
    ensures AllClean(env, k, plan) <==> Clean(env, k) && AllClean(env, k + 1, plan[1..])
  {
    assert plan == [plan[0]] + plan[1..];
    assert |Descriptions(plan)| == 1 + |Descriptions(plan[1..])|;
  }

  // ---------------------------------------------------------------------------
  // Pods are restarted on the image just loaded
  // ---------------------------------------------------------------------------

  /** Whatever services are rebuilt, a deployment is restarted only after the commands that
      build and load its service's image have been run for it and have ended Ok. */
  lemma RestartsFollowTheirImage(env: Env, before: seq<string>, r: Runtime, services: seq<Service>, result: Outcome,
                                 after: seq<string>, k: nat, s: Service, deployment: string) returns (j: nat)
    requires Follows(env, before, Rebuilds(r, services), result, after)
    requires |before| <= k < |after| && deployment in Deployments(s) && after[k] == Restart(deployment)
    ensures |before| <= j && j + |ImageCommands(r, s)| <= k && StandsAt(after, j, ImageCommands(r, s))
    ensures forall i: nat :: j <= i < k ==> ChildResult(env, i) == Ok
  {
    SameBehind(before, Rebuilds(r, services), after, k - |before|);
    var i := ImageBeforeRestart(r, services, k - |before|, s, deployment);
    j := |before| + i;
    PartEndsOk(env, before, Rebuilds(r, services), result, after, i, ImageCommands(r, s), k);
  }

  lemma PartEndsOk(env: Env, before: seq<string>, all: seq<string>, result: Outcome, after: seq<string>,
                   l: nat, part: seq<string>, k: nat)
    requires Follows(env, before, all, result, after) && StandsAt(all, l, part) && |before| + l + |part| <= k < |after|
    ensures StandsAt(after, |before| + l, part)
    ensures forall i: nat :: |before| + l <= i < k ==> ChildResult(env, i) == Ok
  {
    StandsBehind(before, all, after, l, part);
  }

  /** After a successful rebuild of all services every deployment has been restarted. */
  lemma SuccessRestartsAll(env: Env, before: seq<string>, r: Runtime, after: seq<string>, s: Service, deployment: string)
    returns (k: nat)
    requires Follows(env, before, Rebuilds(r, [Ac, Gc, Mc, Mh]), Ok, after) && deployment in Deployments(s)
    ensures |before| <= k < |after| && after[k] == Restart(deployment) && ChildResult(env, k) == Ok
  {
    var l := RestartOf(r, [Ac, Gc, Mc, Mh], s, deployment);
    k := |before| + l;
  }

  // ---------------------------------------------------------------------------
  // A cancel stops a write
  // ---------------------------------------------------------------------------

  /** Children run one after the other. */
  ghost predicate Ordered(env: Env) {
    forall k: nat :: env.child(k).startedAt <= env.child(k).checkedAt <= env.child(k + 1).startedAt
  }

  lemma SetTokenFailsChild(env: Env, k: nat)
    requires TokenSet(env, env.child(k).checkedAt)
    ensures ChildResult(env, k) != Ok
  {
  }

  /** A child whose last look at the token finds it set is the last one of its command, and
      the command fails. */
  lemma {:induction false} CancelStopsPlan(env: Env, k: nat, plan: seq<Item>, j: nat)
    requires k <= j < k + |RunPlan(env, k, plan).started| && TokenSet(env, env.child(j).checkedAt)
    ensures RunPlan(env, k, plan).result != Ok
    ensures j == k + |RunPlan(env, k, plan).started| - 1
    decreases |plan|
  {
    match plan[0] {
      case Local(_, ok) =>
        CancelStopsPlan(env, k, plan[1..], j);
      case Child(_) =>
        if j == k {
          SetTokenFailsChild(env, k);
        } else {
          CancelStopsPlan(env, k + 1, plan[1..], j);
        }
    }
  }

  /** Of the children of one command at most one is started after the token was set, the
      command then ends with an error, and the write is reported as cancelled. */
  lemma AtMostOneChildAfterCancel(env: Env, plan: seq<Item>, i: nat, j: nat, endAt: nat)
    requires Ordered(env) && i < |RunPlan(env, 0, plan).started| && j < |RunPlan(env, 0, plan).started|
    requires TokenSet(env, env.child(i).startedAt) && TokenSet(env, env.child(j).startedAt)
    requires TokenSet(env, endAt)
    ensures i == j
    ensures RunPlan(env, 0, plan).result != Ok
    ensures WriteSlot.MapOutcome(RunPlan(env, 0, plan).result, TokenSet(env, endAt)).Cancelled?
  {
    assert env.child(i).startedAt <= env.child(i).checkedAt && env.child(j).startedAt <= env.child(j).checkedAt;
    CancelStopsPlan(env, 0, plan, i);
    CancelStopsPlan(env, 0, plan, j);
  }

  /** A write under a set token still succeeds only if every look at the token came before;
      it is then reported as a success, whenever the result is mapped. */
  lemma SuccessMeansCancelCameLate(env: Env, plan: seq<Item>, j: nat, endAt: nat)
    requires RunPlan(env, 0, plan).result == Ok && j < |RunPlan(env, 0, plan).started|
    ensures !TokenSet(env, env.child(j).checkedAt)
    ensures WriteSlot.MapOutcome(RunPlan(env, 0, plan).result, TokenSet(env, endAt)) == Ok
  {
    if TokenSet(env, env.child(j).checkedAt) {
      CancelStopsPlan(env, 0, plan, j);
    }
  }

  // ---------------------------------------------------------------------------
  // Teardown
  // ---------------------------------------------------------------------------

  /** The child ran, the client stayed connected, and its last look found the token set. */
  ghost predicate CancelledInTime(env: Env, k: nat) {
    var c := env.child(k);
    c.spawned && c.waitOk && !c.main.writeFailed && TokenSet(env, c.checkedAt)
  }

  lemma {:induction false} NothingToRemove(entries: seq<Entry>, slug: bytes)
    requires forall e :: e in entries ==> e.slug != slug
    ensures Without(entries, slug) == entries
  {
    if entries != [] {
      NothingToRemove(entries[..|entries| - 1], slug);
      assert entries == entries[..|entries| - 1] + [entries[|entries| - 1]];
    }
  }

  /** A teardown leaves the registry as it is exactly when it was cancelled in time,
      deallocation failed, or there was nothing to remove; it then reports a cancel, and in
      every other case success with the slug's entries and no others gone. */
  lemma TeardownKeepsRegistryIff(env: Env, k: nat, entries: seq<Entry>, slug: bytes, deallocationOk: bool)
    ensures var (r, after) := AfterTeardown(env, k, entries, slug, deallocationOk);
            && (after == entries <==>
                CancelledInTime(env, k) || !deallocationOk || forall e :: e in entries ==> e.slug != slug)
            && (r.Cancelled? <==> CancelledInTime(env, k))
            && (!r.Cancelled? ==> r == Ok)
            && (!CancelledInTime(env, k) && deallocationOk ==> forall e :: e in after <==> e in entries && e.slug != slug)
  {
    forall e ensures e in Without(entries, slug) <==> e in entries && e.slug != slug {
      WithoutMembers(entries, slug, e);
    }
    if e :| e in entries && e.slug == slug {
      assert e !in Without(entries, slug);
    } else {
      NothingToRemove(entries, slug);
    }
  }

  /** A teardown whose token is set while its client has gone: the streaming run ends with
      the write failure, which the teardown swallows, and the entry is removed. */
  lemma DisconnectedTeardownForgets(entry: Entry)
    returns (states: seq<Streaming.State>, events: seq<Streaming.Event>, env: Env)
    ensures Streaming.Run(states, events) && states[|events|].pc.Returned? && states[|events|].cancel
    ensures ChildResult(env, 0) == states[|events|].pc.result && TokenSet(env, env.child(0).startedAt)
    ensures AfterTeardown(env, 0, [entry], entry.slug, true) == (Ok, [])
  {
    states, events := StreamRuns.DisconnectedRun();
    var n := |events| - 1;
    var c := ChildOf(states[n], events[n], 0, 0);
    env := Env(k => c, Some(0));
    var j := StreamedChild(states, events, n + 1, env, 0);
    TeardownKeepsRegistryIff(env, 0, [entry], entry.slug, true);
    assert Streaming.Step(states[n], events[n], states[n + 1]);
    assert j == n;
    assert Propagated(ChildResult(env, 0)) == Ok;
    assert [entry][..|[entry]| - 1] == [];
    assert Without([entry], entry.slug) == [];
  }

  // ---------------------------------------------------------------------------
  // Streaming runs and write threads
  // ---------------------------------------------------------------------------

  predicate Returns(e: Streaming.Event) {
    e.Finish? || (e.Wait? && !e.ok)
  }

  /** The child whose streaming run returns with `e` in state `s`. */
  function ChildOf(s: Streaming.State, e: Streaming.Event, startedAt: nat, checkedAt: nat): ChildRun {
    ChildRun(true, s.main, e.Finish?, e.Finish? && e.success, startedAt, checkedAt)
  }

  ghost predicate IsChildOf(env: Env, k: nat, s: Streaming.State, e: Streaming.Event) {
    && env.child(k) == ChildOf(s, e, env.child(k).startedAt, env.child(k).checkedAt)
    && (e.Finish? ==> TokenSet(env, env.child(k).checkedAt) == e.cancelSet)
  }

  /** Whatever a streaming run returns is the result of the child it stands for. */
  lemma {:induction false} StreamedChild(states: seq<Streaming.State>, events: seq<Streaming.Event>, i: nat, env: Env, k: nat)
    returns (j: nat)
    requires Streaming.Run(states, events) && i < |states| && states[i].pc.Returned?
    ensures j < i && Returns(events[j]) && !states[j].pc.Returned?
    ensures forall l :: j < l <= i ==> states[l].pc == states[i].pc
    ensures IsChildOf(env, k, states[j], events[j]) ==> ChildResult(env, k) == states[i].pc.result
  {
    assert Streaming.Step(states[i - 1], events[i - 1], states[i]);
    ReturnStep(states[i - 1], events[i - 1], states[i], env, k);
    if Returns(events[i - 1]) {
      j := i - 1;
    } else {
      j := StreamedChild(states, events, i - 1, env, k);
    }
  }

  lemma ReturnStep(s: Streaming.State, e: Streaming.Event, t: Streaming.State, env: Env, k: nat)
    requires Streaming.Step(s, e, t) && t.pc.Returned?
    ensures s.pc.Returned? <==> !Returns(e)
    ensures s.pc.Returned? ==> t.pc == s.pc
    ensures Returns(e) && IsChildOf(env, k, s, e) ==> ChildResult(env, k) == t.pc.result
  {
  }

  lemma {:induction false} CancelledPlanSawToken(env: Env, k: nat, plan: seq<Item>)
    requires RunPlan(env, k, plan).result.Cancelled?
    ensures RunPlan(env, k, plan).started != []
    ensures TokenSet(env, env.child(k + |RunPlan(env, k, plan).started| - 1).checkedAt)
    decreases |plan|
  {
    match plan[0] {
      case Local(_, _) =>
        CancelledPlanSawToken(env, k, plan[1..]);
      case Child(_) =>
        if ChildResult(env, k) == Ok { CancelledPlanSawToken(env, k + 1, plan[1..]); }
    }
  }

  /** A write thread may return what its plan ends with: the step of the slot machine that
      lets a body end Cancelled only under a set token is enabled. */
  lemma PlanMayReturn(s: WriteSlot.State, t: WriteSlot.Tid, env: Env, plan: seq<Item>, at: nat)
    requires t in s.threads && s.threads[t].Running? && s.threads[t].w.token in s.tokens
    requires s.tokens[s.threads[t].w.token] == TokenSet(env, at)
    requires forall j: nat :: j < |RunPlan(env, 0, plan).started| ==> env.child(j).checkedAt <= at
    ensures var r := RunPlan(env, 0, plan).result;
            WriteSlot.Step(s, WriteSlot.Return(t, r), WriteSlot.To(s, t, WriteSlot.Returned(s.threads[t].w, r)))
  {
    var trace := RunPlan(env, 0, plan);
    if trace.result.Cancelled? {
      CancelledPlanSawToken(env, 0, plan);
      assert env.child(|trace.started| - 1).checkedAt <= at;
    }
  }

  /** So may a teardown thread. */
  lemma TeardownMayReturn(s: WriteSlot.State, t: WriteSlot.Tid, env: Env, k: nat, at: nat)
    requires t in s.threads && s.threads[t].Running? && s.threads[t].w.token in s.tokens
    requires s.tokens[s.threads[t].w.token] == TokenSet(env, at) && env.child(k).checkedAt <= at
    ensures var r := Propagated(ChildResult(env, k));
            WriteSlot.Step(s, WriteSlot.Return(t, r), WriteSlot.To(s, t, WriteSlot.Returned(s.threads[t].w, r)))
  {
  }
}
