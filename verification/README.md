# Verified models of the devloop helper, the token and key caches, and the repository guards

This project models the parts of the repository that are hardest to judge by reading: the
concurrent write slot, cancel and streaming protocol of `devloop-helper`, its port allocator, the
token refresh loop and the JWKS cache of `common`, the retry loop of `env-tests`, and the text and
set transformations of `devloop-helper` and `dt-guard`. `dafny verify dfyconfig.toml` checks all of
it.

Every component has the same shape. Code that updates variables in place is a method or a class
whose contract ties it to a function of its inputs; what the code is for is then proved about that
function, or about a state machine whose steps use it, for every input and every interleaving.

| module | models |
|---|---|
| `WriteSlot` | the shared in-flight slot, its claims, drops, cancels and status snapshots, over all interleavings of connection threads |
| `Streaming`, `StreamRuns`, `Utf8` | `run_command_streaming` with its two reader threads, the child, signals, clock and cancel flags, over all interleavings; two complete runs; line truncation on UTF-8 bytes |
| `WriteSteps`, `Commands` | rebuild, rebuild-all, deploy and teardown as sequences of streamed children under a cancel at any moment |
| `Ports`, `PortFleet` | the port registry and its allocation; many helper processes and foreign processes sharing it |
| `ConnLimit` | the connection cap of the accept loop and the rejection-log limiter |
| `TokenRefresh` | the timed refresh loop with back-off |
| `Jwks` | the key cache with concurrent lookups and forced refreshes and a changing endpoint |
| `Eventual` | the retry loop with a capped doubling delay |
| `Template`, `TemplateText`, `SetupTemplate`, `SetupTable`, `Kubeconfig`, `KubeconfigText` | `${VAR}` substitution over an unordered map, in general and with the variables setup uses; rewriting of API server URLs |
| `Glob`, `GlobText`, `ScopeDrift`, `ScopeLists` | path globs; the plan-versus-diff drift check |
| `ParenWalk`, `ParenDepth` | the two balanced-parenthesis walkers over PromQL |

## What the proofs found

Some properties one would expect are not true of the code as it stands. The models follow the code;
for each of them there is a concrete input or run, and the exact condition under which the property
holds.

- `wildcard_match`, and with it `path_matches_glob`, disagrees with the documented meaning of `*`
  exactly for paths that themselves contain a `*` (`Glob.ExactIffNoStarInPath`; `Glob.StarInPathIsMisjudged` builds the glob).
- `substitute_template` depends on the map's iteration order exactly when some value is empty and
  there are two or more keys: with `A` empty, `$${A}{B}` becomes the value of `B` if `A` is replaced
  first and `${B}` if `B` is (`Template.OrderIndependentIff`,
  `Template.EmptyValueBreaks`).
- `rewrite_kubeconfig_server` loses a URL exactly when one follows another without white space in
  between (`Kubeconfig.CountKeptIff`, `Kubeconfig.DoubledUrlIsSwallowed`).
- The slice in `metric_inside_fn` panics, contrary to the note above it, exactly on an unclosed call
  with nothing after its parenthesis or in an expression that ends in a multi-byte character
  (`ParenWalk.SpanPanicsIff`, `ParenWalk.NothingAfterPanics`, `ParenWalk.AccentAfterPanics`).
- A teardown under a set cancel token still removes its registry entry exactly when the child could
  not be started or waited for, or the client had disconnected
  (`WriteSteps.TeardownKeepsRegistryIff`, `WriteSteps.DisconnectedTeardownForgets`).
- A cancel or shutdown is answered only by a check inside the streaming loop. If a child closes both
  pipes and lives on, the helper waits for it and sends no signal, whatever flags are set
  (`Streaming.NoSignalAfterLoop`, `StreamRuns.UnpolledRun`; within the loop
  `Streaming.CancelIsAnswered` and `Streaming.ShutdownIsAnswered`).
- The allocator hands an existing live entry to a helper without taking over its process id. From a
  reachable state two running helpers can come to share ports without further such hand-overs exactly
  when some helper works with ports taken over that way (`PortFleet.SharingIffAdopted`, `PortFleet.AdoptsIffNotOwn`), which needs a
  reused process id (`PortFleet.NoSharedPortsWithFreshPids`, `PortFleet.ReusedPidSharesPorts`).
- The documented promise that readers always see a non-empty token holds exactly as long as the
  server grants no empty one after the first; only the first is checked
  (`TokenRefresh.NonEmptyIffLaterGrantsAre`, `TokenRefresh.EmptySecondGrant`).
- A `get_key` call that fetched answers from the cache, not from its own response. It can report a key
  missing which its own response contained (`Jwks.OwnResponseCanBeOverwritten`), exactly when the
  latest list stored in between lacks it (`Jwks.AnswerIsOwnUnlessOverwritten`), never with lookups one
  after another and no forced refreshes (`Jwks.LoneCallAnswersFromItsOwnResponse`).
- `assert_eventually` can miss a condition that became true and stayed true exactly when its last
  check began before that (`Eventual.MissedIffLastCheckBeginsEarlier`, `Eventual.SlowCheckMisses`).

## Model

| member | source | states |
|---|---|---|
| WriteSlot.WriteState.TryClaim | crates/devloop-helper/src/commands.rs:389-406 | a claim succeeds exactly on an empty slot; otherwise the slot is unchanged and the blocker reported is its occupant |
| WriteSlot.WriteState.SnapshotBusy | crates/devloop-helper/src/commands.rs:233-241 | the hint is present exactly when the slot is occupied and describes the occupant and its cancel flag |
| WriteSlot.WriteState.Cancel | crates/devloop-helper/src/commands.rs:563-594 | the target is what the slot holds; only its token is changed |
| WriteSlot.WriteState.RunWithWriteSlot | crates/devloop-helper/src/commands.rs:384-464 | a busy slot rejects and names its occupant; otherwise the slot is as before afterwards, Ok is reported exactly for Ok, a returned cancel as it is, and any other error as a cancel without escalation exactly when the token was set |
| WriteSlot.RunInv | crates/devloop-helper/src/commands.rs:384-464 | the lock, slot, token, target, result and status invariants hold in every state of every interleaving |
| WriteSlot.SlotIsTheWriteInFlight | crates/devloop-helper/src/commands.rs:184-196 | at most one write is in flight, the slot is occupied exactly while one is, and the unconditional clear of a guard's drop clears its own claim |
| WriteSlot.OwnerIsStable | crates/devloop-helper/src/commands.rs:389-406 | a token belongs to the same write for ever |
| WriteSlot.CancelledWriteWasTargeted | crates/devloop-helper/src/commands.rs:448-463 | a write that ends Cancelled, or whose token is set, was read from the slot by a cancel while that very write held it |
| WriteSlot.ReportOfTheBody | crates/devloop-helper/src/commands.rs:445-463 | in every run, what a write reports after its final mapping is Ok exactly when its body returned Ok, the body's own cancel unchanged, and for any other error a cancel without escalation exactly when the token was set at the mapping |
| WriteSlot.TargetIsWhatItSaw | crates/devloop-helper/src/commands.rs:563-594 | the target a cancel carries is what its own look found in the slot |
| WriteSlot.CancelReachesOnlyWhatItSaw | crates/devloop-helper/src/commands.rs:563-594 | every token store is by a cancel whose own earlier look found that write in the slot, or nothing; whatever has ended or started since, every other write keeps its phase and its flag |
| WriteSlot.UntargetedWriteIsUndisturbed | crates/devloop-helper/src/commands.rs:448-463 | a write no cancel found ends as its body ended and never as Cancelled |
| WriteSlot.StatusIsOneState | crates/devloop-helper/src/commands.rs:233-241 | every status answer, put together from two reads, describes the slot's occupant and its flag, or an empty slot, in one single state: the one in which its own request made its last read |
| WriteSlot.RejectionNamesTheHolder | crates/devloop-helper/src/commands.rs:389-406 | a rejected write is told operation and arguments of the write that held the slot at that moment |
| Streaming.StreamLoop.SignalGroup | crates/devloop-helper/src/commands.rs:79-108 | a signal goes to the whole group or, when the pid cannot be negated, nowhere |
| Streaming.StreamLoop.Receive | crates/devloop-helper/src/commands.rs:1490-1523 | the receive half of a turn on all loop variables, lines written and signals sent; the first write that fails marks the child killed and sends one SIGKILL unless it was marked before |
| Streaming.StreamLoop.Check | crates/devloop-helper/src/commands.rs:1556-1611 | the cancel, escalation and shutdown half of a turn on all loop variables and signals sent |
| Streaming.StreamLoop.Run | crates/devloop-helper/src/commands.rs:1489-1612 | the loop over any turns is the fold of the two halves and stops at the second Done before its check |
| Streaming.LoopRunsItsTurns | crates/devloop-helper/src/commands.rs:1489-1612 | in every interleaving the loop variables of the machine are those the loop computes from the turns taken so far, so the loop's contract speaks of every run |
| Streaming.PipeReader | crates/devloop-helper/src/commands.rs:1378-1408 | one truncated message per line in order up to the first read error, then one Done |
| Streaming.RunInv | crates/devloop-helper/src/commands.rs:1429-1656 | delivery, Done counting, signal discipline, reaping and result invariants hold in every state of every interleaving of loop, readers, child and flags |
| Streaming.EveryLineDelivered | crates/devloop-helper/src/commands.rs:1464-1523 | when the loop ends and no write failed, the client has got exactly the truncated lines of both readers, none lost or repeated, each stream in its order |
| Streaming.NeverDisconnected | crates/devloop-helper/src/commands.rs:1519-1522 | the disconnected branch is never reached: the second Done always comes first |
| Streaming.SignalDiscipline | crates/devloop-helper/src/commands.rs:1556-1611 | at most one SIGTERM and one SIGKILL, in this order; a SIGKILL for a cancel only after the 2 s grace or when the group cannot be signalled |
| Streaming.SignalsHaveTheirEvents | crates/devloop-helper/src/commands.rs:1490-1611 | exactly which event sends which signal: the first failed write SIGKILL at once; a check that reads the token SIGTERM to the group, or SIGKILL to the leader when the group cannot be signalled; a check that finds the child running 2 s later SIGKILL; a check that reads only the shutdown flag SIGKILL; every other event nothing |
| Streaming.FlagsHaveTheirEvents | crates/devloop-helper/src/commands.rs:1492-1617 | the client counts as lost exactly from the first failed write on; the child is reaped by wait, or by a check that finds it gone after a SIGTERM and before any SIGKILL, and by nothing else |
| Streaming.NoSignalAfterReap | crates/devloop-helper/src/commands.rs:1582-1617 | nothing is signalled once the child has been reaped by try_wait or wait, nor by the step that reaps it |
| Streaming.EscalatedIsTheCancelKill | crates/devloop-helper/src/commands.rs:1631-1642 | a returned Cancelled says escalated exactly when the cancel path sent a SIGKILL, and is returned only with the token set and the client connected |
| Streaming.CancelIsAnswered | crates/devloop-helper/src/commands.rs:1556-1603 | after a check that reads the token as set the child has been signalled or is known to be gone; after the grace it was killed or has exited |
| Streaming.NoSignalAfterLoop | crates/devloop-helper/src/commands.rs:1612-1618 | once the loop has been left nothing is signalled any more, whatever flags are set while the helper waits |
| Streaming.ShutdownIsAnswered | crates/devloop-helper/src/commands.rs:1601-1610 | after a check that reads the shutdown flag as set the child was killed or is gone, or a cancel's grace period is running |
| Streaming.KilledForAReason | crates/devloop-helper/src/commands.rs:1500-1611 | while the loop runs child_killed is true exactly if a SIGKILL was sent or the child was reaped, and a lost client implies it |
| Streaming.ReturnedResult | crates/devloop-helper/src/commands.rs:1614-1656 | a run returns the write failure if the client was lost, else a cancel if the token is set, escalated exactly if the cancel path sent a SIGKILL, else Ok or the exit code with or without the note on the kill, or the failure to wait |
| StreamRuns.DisconnectedRun | crates/devloop-helper/src/commands.rs:1490-1642 | a run in which the token is set but the client has gone ends with the write failure, not as Cancelled |
| StreamRuns.UnpolledRun | crates/devloop-helper/src/commands.rs:1612-1618 | a run in which both pipes close early: the helper waits for a living child with both flags set and no signal sent |
| Utf8.TruncateLine | crates/devloop-helper/src/protocol.rs:433-445 | the backward search stops at the last character boundary within the limit |
| Utf8.TruncateKeepsText | crates/devloop-helper/src/protocol.rs:433-445 | truncated text is well-formed UTF-8 (no overlong forms, surrogates or values above 10FFFF): the bytes up to the last character boundary within the limit, at most three less than allowed, and the marker; short lines are untouched |
| Utf8.CutAtBoundary | crates/devloop-helper/src/protocol.rs:433-445 | cutting text at a character boundary leaves text on both sides |
| WriteSteps.Session.LoadImageToKind | crates/devloop-helper/src/commands.rs:1218-1271 | save and load for podman, one load for docker, by name and in this order, each only after the one before ended Ok; the result is that of the last child |
| WriteSteps.Session.RestartDeployment | crates/devloop-helper/src/commands.rs:1274-1350 | one restart for ac and gc, two in order for mc and mh, by name, each only after the one before ended Ok |
| WriteSteps.Session.Rebuild | crates/devloop-helper/src/commands.rs:1084-1113 | for each runtime and service the children started are a prefix of the literal list build, load, restart; each starts only after the one before ended Ok, the result is that of the last, and Ok means all were started |
| WriteSteps.Session.RebuildAll | crates/devloop-helper/src/commands.rs:1116-1125 | the same for the lists of ac, gc, mc and mh one after the other |
| WriteSteps.Session.Deploy | crates/devloop-helper/src/commands.rs:1128-1163 | a failed gateway step starts nothing; otherwise exactly the one child named for the service |
| WriteSteps.Session.Teardown | crates/devloop-helper/src/commands.rs:1166-1199 | the registry keeps its entries exactly when the deletion was cancelled or deallocation failed; otherwise the slug's entries and no others are removed |
| WriteSteps.Then | crates/devloop-helper/src/commands.rs:1084-1125 | running one plan after another is running the concatenated plan, and a failing first part hides the second |
| WriteSteps.PlanFollows | crates/devloop-helper/src/commands.rs:1084-1125 | the children of a plan are started in order, each only after all before it ended Ok, and the command ends as its last child does |
| WriteSteps.RestartsFollowTheirImage | crates/devloop-helper/src/commands.rs:1084-1125 | whatever services are rebuilt, a deployment is restarted only after the build and all load steps of its own service's image were run for it and ended Ok |
| WriteSteps.SuccessRestartsAll | crates/devloop-helper/src/commands.rs:1116-1125 | a successful rebuild of all services has restarted every deployment of every service |
| WriteSteps.SuccessIffAllClean | crates/devloop-helper/src/commands.rs:1614-1656 | children start in plan order without gaps; a command succeeds exactly when every child was started, waited for and exited with zero, the client stayed connected and no look found the token set |
| WriteSteps.CancelStopsPlan | crates/devloop-helper/src/commands.rs:1429-1447 | a child whose last look finds the token set is the last of its command, and the command fails |
| WriteSteps.AtMostOneChildAfterCancel | crates/devloop-helper/src/commands.rs:1084-1125 | after the token is set at most one further child starts, the command then fails and the write is reported as cancelled |
| WriteSteps.SuccessMeansCancelCameLate | crates/devloop-helper/src/commands.rs:1631-1642 | a command succeeds under a set token only if every child's last look came before, and is then reported as a success |
| WriteSteps.TeardownKeepsRegistryIff | crates/devloop-helper/src/commands.rs:1166-1215 | the registry is unchanged exactly when the child ran, the client stayed connected and the last look found the token set, or deallocation failed, or there was nothing to remove; every other error is swallowed and exactly the slug's entries go |
| WriteSteps.DisconnectedTeardownForgets | crates/devloop-helper/src/commands.rs:1631-1642 | a complete streaming run in which the token is set and the client disconnects: the teardown reports success and the entry is removed |
| WriteSteps.StreamedChild | crates/devloop-helper/src/commands.rs:1614-1656 | whatever a streaming run returns in any interleaving is the result of the child it stands for in the plans |
| WriteSteps.CancelledPlanSawToken | crates/devloop-helper/src/commands.rs:1631-1642 | a plan ends Cancelled only if its last child's last look found the token set |
| WriteSteps.PlanMayReturn | crates/devloop-helper/src/commands.rs:445-463 | the result of every plan meets the guard under which the slot machine lets a write return |
| WriteSteps.TeardownMayReturn | crates/devloop-helper/src/commands.rs:1206-1215 | so does the result a teardown passes on |
| Ports.PortsStayInRange | crates/devloop-helper/src/ports.rs:16-62 | no 16-bit step wraps for the fifty slots, and every port lies in 20000-29999 |
| Ports.BlocksAreDisjoint | crates/devloop-helper/src/ports.rs:57-62 | different slots have no port in common |
| Ports.PreferredIndex | crates/devloop-helper/src/ports.rs:80-87 | the wrapping 64-bit hash loop is djb2 on unbounded integers, reduced |
| Ports.SampleSlots | crates/devloop-helper/src/ports.rs:80-87 | the preferred slots of four slugs, one of which makes the 64-bit hash wrap |
| Ports.RegistryFile.AllocatePorts | crates/devloop-helper/src/ports.rs:192-249 | result and file after one allocation, including that nothing is written when an entry is reused or no slot is free |
| Ports.RegistryFile.DeallocatePorts | crates/devloop-helper/src/ports.rs:252-258 | exactly the slug's entries are gone, the others in order |
| Ports.WithoutOfParts | crates/devloop-helper/src/ports.rs:252-258 | deallocation treats the entries one by one and keeps the order of the others |
| Ports.LiveOfParts | crates/devloop-helper/src/ports.rs:197-197 | so does the dropping of dead entries |
| Ports.ProbeFree | crates/devloop-helper/src/ports.rs:216-230 | the probing loop finds the first slot in cyclic order that is not used |
| Ports.FirstFreeIsFirst | crates/devloop-helper/src/ports.rs:216-230 | the slot found is free and every slot before it in cyclic order is used; none found means all used |
| Ports.AllocationOfNewSlug | crates/devloop-helper/src/ports.rs:192-249 | without a live entry the first free slot in cyclic order from the hash is taken and recorded; failure exactly when live entries use all fifty slots |
| Ports.AllocationOfKnownSlug | crates/devloop-helper/src/ports.rs:200-207 | with a live entry for the slug its block is returned, that of the first entry should there be more, and the file is not changed |
| Ports.AllocationKeepsOk | crates/devloop-helper/src/ports.rs:192-249 | distinct slugs, distinct slots below fifty and base = 20000 + 200 * slot are kept, and the result is an entry of the file |
| Ports.WithoutKeepsOk | crates/devloop-helper/src/ports.rs:252-258 | deallocation keeps the registry well formed |
| Ports.LiveKeepsOk | crates/devloop-helper/src/ports.rs:197-197 | dropping dead entries keeps the registry well formed |
| Ports.FailureMeansFifty | crates/devloop-helper/src/ports.rs:216-230 | in a well-formed registry failure means exactly fifty live entries |
| Ports.AllocationIsIdempotent | crates/devloop-helper/src/ports.rs:200-207 | allocating again returns the same block and changes nothing |
| PortFleet.RegistryAlwaysOk | crates/devloop-helper/src/ports.rs:192-258 | the registry is well formed in every state of every run of many helpers, with or without reuse of process ids |
| PortFleet.NoSharedPorts | crates/devloop-helper/src/ports.rs:192-258 | if every allocation that finds a live entry finds its own, two running helpers never share a port |
| PortFleet.NoSharedPortsWithFreshPids | crates/devloop-helper/src/ports.rs:192-258 | without reuse of process ids and with one helper per slug, two running helpers never share a port |
| PortFleet.AdoptsIffNotOwn | crates/devloop-helper/src/ports.rs:200-207 | a successful allocation leaves the helper without an entry under its own process id exactly when it found a live entry of another process |
| PortFleet.NewSlugFor | crates/devloop-helper/src/ports.rs:80-87 | for every slot and every finite set of slugs another slug hashes to that slot, 64-bit wrap included |
| PortFleet.AdoptionLeadsToSharing | crates/devloop-helper/src/ports.rs:200-207 | from every reachable state with adopted ports at most three steps, none an adoption or a reuse, lead to two running helpers with the same ports |
| PortFleet.SharingIffAdopted | crates/devloop-helper/src/ports.rs:192-258 | from a state of any run, sharing can come about without further adoptions exactly when some helper works with ports for which it has no entry of its own |
| PortFleet.ReusedPidSharesPorts | crates/devloop-helper/src/ports.rs:200-207 | a complete run from the empty registry in which this happens |
| ConnLimit.TryClaim | crates/devloop-helper/src/main.rs:144-152 | a connection is accepted exactly below the cap, and a rejected one is not counted |
| ConnLimit.MaybeLogCapReject | crates/devloop-helper/src/main.rs:222-241 | uninterrupted, a call logs exactly when a second has passed and then records its time |
| ConnLimit.CounterIsExact | crates/devloop-helper/src/main.rs:144-195 | in every reachable state the counter is the live handlers plus the accept step in progress, and at most 32 handlers are live |
| ConnLimit.VerdictIsOfTheClaim | crates/devloop-helper/src/main.rs:144-168 | a connection is rejected exactly when all 32 handlers were live at the moment it was counted |
| ConnLimit.RejectionsAreSpaced | crates/devloop-helper/src/main.rs:222-241 | logged rejections are strictly increasing and at least 1000 ms apart for every interleaving, every clock and stale relaxed loads |
| TokenRefresh.Refresher.Turn | crates/common/src/token_manager.rs:522-632 | back-off, expiry, published token and sleep after one turn, for every reply, in numbers: the 30 s margin, the 1 s least sleep, the doubling up to 30 s |
| TokenRefresh.EveryWakeUpAcquires | crates/common/src/token_manager.rs:522-536 | on a clock that never goes back every decision after a wake-up starts an acquisition, whatever lifetimes are granted |
| TokenRefresh.SleepsUntilDue | crates/common/src/token_manager.rs:613-627 | in every run a scheduled sleep lasts exactly the whole seconds left until the threshold and 30 s before the expiry, and at least one |
| TokenRefresh.NeverExpired | crates/common/src/token_manager.rs:518-632 | while granted lifetimes exceed threshold + 30 s and each due refresh takes at most threshold + 30 s, no reader holds a token past the second of its recorded expiry |
| TokenRefresh.ExpiryIsExactToTheSecond | crates/common/src/token_manager.rs:613-627 | the bound cannot be tightened: an on-time run serves a token 999 ms after the instant of expiry |
| TokenRefresh.BackoffIsCappedPower | crates/common/src/token_manager.rs:583-608 | after n failures in a row the wait is min(1000 * 2^n, 30000) ms, and it restarts on success |
| TokenRefresh.DefaultsAbsorbTenFailures | crates/common/src/token_manager.rs:518-632 | with default threshold and time limit a punctual loop never serves an expired token as long as at most ten attempts in a row fail |
| TokenRefresh.ElevenFailuresAreTooMany | crates/common/src/token_manager.rs:583-608 | a punctual run with eleven failures in a row in which readers hold a token past its expiry: ten is exact |
| TokenRefresh.NonEmptyIffLaterGrantsAre | crates/common/src/token_manager.rs:491-503 | the hand-out succeeds exactly when the token it looks at is not empty; from then on readers see non-empty tokens throughout exactly when no grant published later is empty |
| TokenRefresh.EmptySecondGrant | crates/common/src/token_manager.rs:491-503 | a run in which readers are handed a token with text and then see an empty one |
| Jwks.LookupIsTruthful | crates/common/src/jwt.rs:934-939 | the collected map answers for every key ID what the served list says, the last entry winning for a repeated ID |
| Jwks.JwksClient.RefreshCache | crates/common/src/jwt.rs:905-955 | the entry is replaced by the response with a new expiry, or left alone on failure |
| Jwks.JwksClient.GetKey | crates/common/src/jwt.rs:870-901 | a fresh entry answers without a fetch, found or not; otherwise the response does; a failed fetch changes nothing |
| Jwks.RunInv | crates/common/src/jwt.rs:870-955 | in every interleaving the cached list is one the endpoint served, at most the fetch lag before it was stored, and every answer is truthful |
| Jwks.AnswersAreWhatTheEndpointServed | crates/common/src/jwt.rs:870-901 | a returned key has the requested ID and was served, and a missing one was absent, less than ttl + lag before the call began, or at most lag before if the call fetched |
| Jwks.AgeBoundIsReached | crates/common/src/jwt.rs:870-901 | for every ttl and lag some call is answered from a list exactly that old |
| Jwks.OwnResponseCanBeOverwritten | crates/common/src/jwt.rs:888-901 | a run in which a call reports a key missing that its own response contained |
| Jwks.LastStore | crates/common/src/jwt.rs:950-955 | the cached list is always that of the latest store |
| Jwks.AnswerIsOwnUnlessOverwritten | crates/common/src/jwt.rs:888-901 | a call that fetched answers what the latest stored response says: its own if nothing was stored in between, and otherwise something else than its own exactly when the two lists disagree on the key |
| Jwks.LoneCallAnswersFromItsOwnResponse | crates/common/src/jwt.rs:888-901 | with lookups one after another and no forced refreshes a call that fetched always answers from its own response |
| Jwks.FetchesWaitForExpiry | crates/common/src/jwt.rs:870-888 | in every interleaving a lookup decides to fetch only when every earlier store is at least ttl old, whatever keys are asked for |
| Jwks.SequentialFetchesAreATtlApart | crates/common/src/jwt.rs:870-955 | with lookups one after another and no forced refreshes each successful fetch begins at least ttl after the previous one was stored |
| Jwks.OverlappingFetchesCanCoincide | crates/common/src/jwt.rs:888-888 | overlapping calls can store at the same instant: nothing joins their fetches |
| Eventual.AssertEventually | crates/env-tests/src/eventual.rs:69-106 | the loop ends; success is the first true answer, failure comes only at or after the category's timeout of 30, 45, 10 or 60 s, for every environment |
| Eventual.DelayIsPositive | crates/env-tests/src/eventual.rs:93-104 | every delay the loop sleeps is positive |
| Eventual.CapLeavesTwoChecks | crates/env-tests/src/eventual.rs:98-104 | at most two checks follow the first capped delay |
| Eventual.ChecksAreLogarithmic | crates/env-tests/src/eventual.rs:69-106 | at most n + 2 checks once n doublings of the first delay exceed the timeout |
| Eventual.NineChecksAtMost | crates/env-tests/src/eventual.rs:29-48 | no category checks its condition more than nine times |
| Eventual.FailureTime | crates/env-tests/src/eventual.rs:69-106 | a failure at the first check comes when that check ends; any later one before 1.5 timeouts plus 250 ms plus the overhead of the last two rounds, a timeout shorter than the first delay counting as that delay when the second check fails |
| Eventual.ExactFailureTime | crates/env-tests/src/eventual.rs:69-106 | with exact sleeps and instant checks a failure comes at or after the timeout and before twice the timeout |
| Eventual.FailureSchedule | crates/env-tests/src/eventual.rs:29-106 | with exact sleeps and instant checks the categories fail after 7, 8, 6 and 8 checks at 31.5, 61, 14 and 63.5 s |
| Eventual.OutcomeIsUnique | crates/env-tests/src/eventual.rs:69-106 | for given timing and answers the loop ends in one way |
| Eventual.MissedIffLastCheckBeginsEarlier | crates/env-tests/src/eventual.rs:69-106 | a condition that holds from some moment on and stays true can be missed exactly when the last check begins before that moment, whatever the timing of checks and sleeps |
| Eventual.InstantChecksMissNothing | crates/env-tests/src/eventual.rs:69-106 | if the last check is instant, a condition that is true by the timeout and stays true is always reported |
| Eventual.SlowCheckMisses | crates/env-tests/src/eventual.rs:81-91 | an environment with a slow check in which a condition true from 1 ms on is missed |
| Template.SubstituteTemplate | crates/devloop-helper/src/ports.rs:528-535 | for whatever iteration order, the result is the sequential replacement, and under the premises the simultaneous substitution |
| Template.ReplaceThenSimultaneous | crates/devloop-helper/src/ports.rs:528-535 | replacing one key first and the others at once is substituting all at once |
| Template.AnyOrderIsSimultaneous | crates/devloop-helper/src/ports.rs:528-535 | without nesting and with plain non-empty values every iteration order gives one simultaneous substitution that leaves unknown placeholders alone |
| Template.EmptyValueBreaks | crates/devloop-helper/src/ports.rs:528-535 | with an empty value beside another key there are two iteration orders that turn one template into different texts |
| Template.SingleKey | crates/devloop-helper/src/ports.rs:528-535 | with one key replacement and substitution agree on every text |
| Template.OrderIndependentIff | crates/devloop-helper/src/ports.rs:528-535 | any two iteration orders agree on all templates without nesting exactly when no value is empty or there is at most one key, and then all give the simultaneous substitution |
| SetupTemplate.HostPortsAreDistinct | crates/devloop-helper/src/ports.rs:441-525 | no two port variables get the same port, and all lie in the slot's block |
| SetupTemplate.EveryVariableHasItsPort | crates/devloop-helper/src/ports.rs:23-48 | for every slot each of the twenty variables names the port at its own offset in the slot's block; the keys are these and the two for gateway and cluster, which carry what is given |
| SetupTemplate.DecimalRoundTrip | crates/devloop-helper/src/ports.rs:445-452 | a port's decimal text reads back as the port and has no leading zero |
| SetupTemplate.SetupVarsArePlain | crates/devloop-helper/src/commands.rs:640-642 | the variables setup substitutes meet the premises of the substitution theorem for every allocation and every plain non-empty address and cluster name |
| SetupTemplate.SetupTextIsOrderFree | crates/devloop-helper/src/commands.rs:641-644 | the kind configuration is the same text for every iteration order of the map |
| SetupTemplate.PlaceholderBecomesValue | crates/devloop-helper/src/commands.rs:640-644 | a placeholder for any of setup's variables becomes that variable's value in every iteration order |
| Kubeconfig.RewriteKubeconfigServer | crates/devloop-helper/src/commands.rs:796-824 | an error exactly when the pattern does not occur; otherwise the loop computes the rewriting of the whole text |
| Kubeconfig.FirstUrlRewritten | crates/devloop-helper/src/commands.rs:796-824 | the text before the first URL is kept, the token behind the pattern replaced, and the rest rewritten alike |
| Kubeconfig.NothingToRewrite | crates/devloop-helper/src/commands.rs:796-824 | text without the pattern is left as it is |
| Kubeconfig.EveryOccurrenceRetargeted | crates/devloop-helper/src/commands.rs:796-824 | in the result the target follows every occurrence of the pattern as a whole token |
| Kubeconfig.LastTargetWins | crates/devloop-helper/src/commands.rs:796-824 | rewriting again depends on the last target alone, so rewriting is idempotent and keeps all text outside the tokens |
| Kubeconfig.OccurrenceBalance | crates/devloop-helper/src/commands.rs:796-824 | occurrences before are occurrences after plus those inside discarded tokens |
| Kubeconfig.NothingSwallowedIffSeparated | crates/devloop-helper/src/commands.rs:796-824 | an occurrence is discarded with a token exactly when some occurrence follows another without white space in between |
| Kubeconfig.CountKeptIff | crates/devloop-helper/src/commands.rs:796-824 | for white-space-free hosts the number of URLs is kept exactly when white space follows each URL before the next one |
| Kubeconfig.DoubledUrlIsSwallowed | crates/devloop-helper/src/commands.rs:796-824 | a family of inputs on which a URL is lost |
| Kubeconfig.TargetIsTarget | crates/devloop-helper/src/commands.rs:796-824 | host, colon and decimal port form a token for every white-space-free host |
| Glob.WildcardMatch | crates/dt-guard/src/common/manifest_match.rs:47-85 | the two-cursor loop ends and decides the declarative meaning on paths without a star |
| Glob.MeaningOfTwoParts | crates/dt-guard/src/common/manifest_match.rs:10-17 | a path matches two globs in a row exactly when it splits into a match of the first and a match of the second |
| Glob.MeaningOfOneCharacter | crates/dt-guard/src/common/manifest_match.rs:10-17 | a star matches exactly the texts without a slash, a question mark any one character but a slash, any other character itself |
| Glob.LatestStarSuffices | crates/dt-guard/src/common/manifest_match.rs:61-78 | forgetting all but the latest star loses no match |
| Glob.WalkInvariant | crates/dt-guard/src/common/manifest_match.rs:47-85 | from every cursor position the matcher succeeds exactly when the rest matches or the latest star can take more |
| Glob.WalkDecidesMatches | crates/dt-guard/src/common/manifest_match.rs:47-85 | matcher and meaning agree on paths without a star |
| Glob.StarInPathIsMisjudged | crates/dt-guard/src/common/manifest_match.rs:22-60 | every path with a star is misjudged by some glob without a trailing double star, in the matcher and in path_matches_glob |
| Glob.ExactIffNoStarInPath | crates/dt-guard/src/common/manifest_match.rs:22-85 | the matcher, and path_matches_glob on globs without a trailing double star, is exact for a path precisely when the path holds no star |
| Glob.PathMatchesGlobMeaning | crates/dt-guard/src/common/manifest_match.rs:22-39 | a trailing double star matches the directory and everything below it and nothing else, for every path; any other glob has the segment meaning on paths without a star |
| ScopeDrift.CheckScope | crates/dt-guard/src/cross_boundary_scope.rs:99-153 | the loops compute the report for every diff, plan and exemption set; on paths without a star the findings are exactly the drift as the declarative meaning of the globs has it |
| ScopeDrift.SortDedup | crates/dt-guard/src/cross_boundary_scope.rs:130-131 | strictly ascending with the same members |
| ScopeDrift.AscendingIsUnique | crates/dt-guard/src/cross_boundary_scope.rs:130-131 | order and members determine the sorted list |
| ScopeDrift.LessIsLexicographic | crates/dt-guard/src/cross_boundary_scope.rs:130-131 | the order of the sort is lexicographic |
| ScopeDrift.ReportMembers | crates/dt-guard/src/cross_boundary_scope.rs:99-153 | a path is reported inbound exactly when changed, not exempt and covered by no entry; an entry untouched exactly when it covers no changed path |
| ScopeDrift.CoversIffAccountsFor | crates/dt-guard/src/cross_boundary_scope.rs:111-129 | testing an entry for glob characters first makes no difference: it accounts for a path without a star exactly by the meaning of its glob, a trailing double star for every path exactly by the directory |
| ScopeDrift.ReportByGlobs | crates/dt-guard/src/cross_boundary_scope.rs:99-153 | for diffs without a star in a path: inbound is exactly what no entry's glob matches, untouched exactly an entry whose glob matches no changed path |
| ScopeDrift.ReportCounts | crates/dt-guard/src/cross_boundary_scope.rs:133-150 | an inbound path is reported as often as it occurs in the diff, an untouched entry once |
| ScopeDrift.EmptyReportIffMutualCover | crates/dt-guard/src/cross_boundary_scope.rs:99-153 | no drift exactly when plan and diff cover each other |
| ScopeDrift.ReportOrder | crates/dt-guard/src/cross_boundary_scope.rs:133-150 | inbound paths come first, in the order of the diff, then the untouched entries, strictly ascending |
| ScopeDrift.RepairedPlanHasNoDrift | crates/dt-guard/src/cross_boundary_scope.rs:99-153 | adding the inbound paths and dropping the untouched entries always yields an empty report, glob characters or not |
| ScopeDrift.FilteredReport | crates/dt-guard/src/cross_boundary_scope.rs:180-189 | filtering keeps exactly the paths that are not excluded; after it no excluded path is reported, and the report depends on the set of changed paths only |
| ScopeDrift.ExclusionMeaning | crates/dt-guard/src/cross_boundary_scope.rs:54-87 | excluded, of the paths without a star, are exactly the active main.md, docs/TODO.md, a specialist's INDEX.md one directory down, and a user story directly in its directory |
| ParenWalk.FindClose | crates/dt-guard/src/alert_rules.rs:199-218 | the walk finds the matching close, or the call is not closed |
| ParenWalk.MatchingCloseIsUnique | crates/dt-guard/src/alert_rules.rs:199-218 | a call has at most one matching close |
| ParenWalk.MatchingCloseIffBalancedBody | crates/dt-guard/src/alert_rules.rs:199-218 | depth counting finds exactly the close whose body is balanced by the grammar |
| ParenWalk.SampleCalls | crates/dt-guard/src/alert_rules.rs:199-218 | a concrete expression with one closed and one unclosed call |
| ParenWalk.FindQualifyingExprWindow | crates/dt-guard/src/alert_rules.rs:196-233 | the maximum over all ranges of at least 30 s inside closed calls; none exactly when there is no such range |
| ParenWalk.WalkCall | crates/dt-guard/src/dashboard_panels.rs:233-243 | the walk stops just after the matching close, or at the end of an unclosed call |
| ParenWalk.WalkersAgreeOnClosedCalls | crates/dt-guard/src/dashboard_panels.rs:225-254 | on every closed call both walkers take the same balanced text, and it can be sliced |
| ParenWalk.SpanPanicsIff | crates/dt-guard/src/dashboard_panels.rs:244-244 | the slice panics exactly on unclosed calls with nothing after the parenthesis or a multi-byte last character |
| ParenWalk.MetricInsideFn | crates/dt-guard/src/dashboard_panels.rs:225-254 | true, false or panic for exactly the first call that decides; with closed calls only, whether some call mentions the metric |
| ParenWalk.DangerousCallPanics | crates/dt-guard/src/dashboard_panels.rs:244-244 | at a dangerous call the lookup has no outcome but a panic |
| ParenWalk.NothingAfterPanics | crates/dt-guard/src/dashboard_panels.rs:244-244 | the concrete expression with nothing after the parenthesis |
| ParenWalk.AccentAfterPanics | crates/dt-guard/src/dashboard_panels.rs:244-244 | the concrete expression that ends in a two-byte letter |

## Assumptions

- The write-slot and streaming machines take atomic loads and stores in one order; the loop's relaxed
  loads of the cancel token never go back to unset once seen set. The rejection-log limiter allows
  relaxed loads to return any earlier value.
- In the write-slot machine a command body returns Cancelled only with its token set;
  `WriteSteps.PlanMayReturn` and `WriteSteps.TeardownMayReturn` prove it of the modelled commands.
- `PortFleet` takes slugs as arbitrary byte strings; the length limit and alphabet of valid slugs are
  not part of it.
- One reader's messages arrive in order, as an mpsc channel guarantees. `kill` on an unreaped child
  succeeds when its pid can be negated.
- Registry operations are atomic, as the file lock makes them, and one helper runs per slug, as the
  startup lock makes it (crates/devloop-helper/src/main.rs:510-528).
- Placeholder names, like values, are free of `$`, `{` and `}`; the names in use are proved to be
  (`SetupTemplate.SetupVarsArePlain`). A parsed gateway address and a cluster name made from a
  validated slug are plain and not empty.
- Positions of function calls, word atoms, range selectors and their durations are given: they come
  from regular expressions and a duration parser.
- The time from the endpoint's answer to its storage in the key cache is bounded by a parameter.

## Left out

- `cmd_setup` and its port-map, kubeconfig and readiness steps: a longer sequence of the same kind of
  steps as the modelled commands, with file writing in between.
- Status beyond the busy hint, pod health, audit-log formatting, request parsing and authentication:
  field copying and one-branch checks.
- Failure of thread creation, poisoned locks, and panics inside a handler other than the guard's drop.
- Reading, parsing, writing and locking the registry file, its I/O errors and crash consistency; the
  probe of ports with bind.
- Overflow of 64-bit time and expiry arithmetic after the cast of `expires_in`, and of counters that
  stay far below their width.
- The end of the refresh loop when all receivers are dropped, and its callbacks and logging.
- The HTTP exchange, JSON, base64, Ed25519 verification and claim checks of the token code.
- `clear_cache` of the key cache, a utility compiled only for unit tests.
- `parse_plan_paths`, `find_active_main_md` and the other dt-guard scanners: table and regex scans.
- Reading of plan, diff and dashboards from disk or git.
- WriteSlot.WriteState.RunWithWriteSlot: the command body is given by its result and by whether its
  token was set meanwhile, since a method cannot take a body; the interleavings are in `WriteSlot.RunInv`.
- TokenRefresh.NeverExpired: the bound is to the second, since expiry times are whole seconds.
- WriteSteps.Session.Rebuild: command lines are descriptions; their arguments and environment are not
  modelled.
