/**
 The commands of a rebuild by name: the tables and texts behind `WriteSteps`.

 `RebuildPlan` and the other plans are the steps of the source's functions, put together
 as these functions are; `RebuildCommands` and the other lists name the children in full.
 The lemmas show that the plans start exactly these children.

 The rest is about the places of single commands in such a list: every restart names a
 deployment of the service that is rebuilt, and stands behind the commands that build and
 load the image.

 The descriptions are those the source passes to its streaming function.
 */
module Commands {
  datatype Runtime = Podman | Docker

  datatype Service = Ac | Gc | Mc | Mh

  /** A step of a command: a streamed child, or work of the helper itself. */
  datatype Item = Child(description: string) | Local(description: string, ok: bool)

  function RuntimeName(r: Runtime): string {
    if r.Podman? then "podman" else "docker"
  }

  function ServiceName(s: Service): string {
    match s case Ac => "ac" case Gc => "gc" case Mc => "mc" case Mh => "mh"
  }

  function ImageTag(s: Service): string {
    match s
    case Ac => "localhost/ac-service:latest"
    case Gc => "localhost/gc-service:latest"
    case Mc => "localhost/mc-service:latest"
    case Mh => "localhost/mh-service:latest"
  }

  const ALL_SERVICES: seq<Service> := [Ac, Gc, Mc, Mh]

  // ---------------------------------------------------------------------------
  // The plans
  // ---------------------------------------------------------------------------

  function LoadPlan(r: Runtime, tag: string): seq<Item> {
    if r.Podman? then [Child("podman save " + tag), Child("kind load image-archive")]
    else [Child("kind load docker-image")]
  }

  function RestartPlan(s: Service): seq<Item> {
    var restart := "kubectl rollout restart ";
    match s
    case Ac => [Child(restart + "ac-service")]
    case Gc => [Child(restart + "gc-service")]
    case Mc => [Child(restart + "mc-0"), Child(restart + "mc-1")]
    case Mh => [Child(restart + "mh-0"), Child(restart + "mh-1")]
  }

  function RebuildPlan(r: Runtime, s: Service): seq<Item> {
    [Child(RuntimeName(r) + " build " + ServiceName(s))] + LoadPlan(r, ImageTag(s)) + RestartPlan(s)
  }

  function RebuildAllPlan(r: Runtime, services: seq<Service>): seq<Item> {
    if services == [] then []
    else RebuildAllPlan(r, services[..|services| - 1]) + RebuildPlan(r, services[|services| - 1])
  }

  // ---------------------------------------------------------------------------
  // The same by name
  // ---------------------------------------------------------------------------

  /** The children of a rebuild: the image is built, then loaded, then its pods are restarted. */
  function RebuildCommands(r: Runtime, s: Service): seq<string> {
    match (r, s)
    case (Podman, Ac) =>
      ["podman build ac", "podman save " + "localhost/ac-service:latest", "kind load image-archive",
       "kubectl rollout restart ac-service"]
    case (Podman, Gc) =>
      ["podman build gc", "podman save " + "localhost/gc-service:latest", "kind load image-archive",
       "kubectl rollout restart gc-service"]
    case (Podman, Mc) =>
      ["podman build mc", "podman save " + "localhost/mc-service:latest", "kind load image-archive",
       "kubectl rollout restart mc-0", "kubectl rollout restart mc-1"]
    case (Podman, Mh) =>
      ["podman build mh", "podman save " + "localhost/mh-service:latest", "kind load image-archive",
       "kubectl rollout restart mh-0", "kubectl rollout restart mh-1"]
    case (Docker, Ac) => ["docker build ac", "kind load docker-image", "kubectl rollout restart ac-service"]
    case (Docker, Gc) => ["docker build gc", "kind load docker-image", "kubectl rollout restart gc-service"]
    case (Docker, Mc) =>
      ["docker build mc", "kind load docker-image", "kubectl rollout restart mc-0", "kubectl rollout restart mc-1"]
    case (Docker, Mh) =>
      ["docker build mh", "kind load docker-image", "kubectl rollout restart mh-0", "kubectl rollout restart mh-1"]
  }

  /** One rebuild after the other. */
  function Rebuilds(r: Runtime, services: seq<Service>): seq<string> {
    if services == [] then []
    else Rebuilds(r, services[..|services| - 1]) + RebuildCommands(r, services[|services| - 1])
  }

  function LoadCommands(r: Runtime, tag: string): seq<string> {
    match r
    case Podman => ["podman save " + tag, "kind load image-archive"]
    case Docker => ["kind load docker-image"]
  }

  function RestartCommands(s: Service): seq<string> {
    match s
    case Ac => ["kubectl rollout restart ac-service"]
    case Gc => ["kubectl rollout restart gc-service"]
    case Mc => ["kubectl rollout restart mc-0", "kubectl rollout restart mc-1"]
    case Mh => ["kubectl rollout restart mh-0", "kubectl rollout restart mh-1"]
  }

  function DeployCommand(s: Service): string {
    match s
    case Ac => "setup.sh --skip-build --only ac"
    case Gc => "setup.sh --skip-build --only gc"
    case Mc => "setup.sh --skip-build --only mc"
    case Mh => "setup.sh --skip-build --only mh"
  }

  function DeployPlan(svc: Service, gatewayOk: bool): seq<Item> {
    [Local("host-gateway-ip", gatewayOk), Child("setup.sh --skip-build --only " + ServiceName(svc))]
  }

  // ---------------------------------------------------------------------------
  // Plans start the commands named
  // ---------------------------------------------------------------------------

  lemma {:induction false} DescriptionsConcat(a: seq<Item>, b: seq<Item>)
    ensures Descriptions(a + b) == Descriptions(a) + Descriptions(b)
  {
    if a == [] {
      assert a + b == b;
    } else {
      assert (a + b)[1..] == a[1..] + b;
      DescriptionsConcat(a[1..], b);
    }
  }

  lemma DescribeTwo(first: string, second: string)
    ensures Descriptions([Child(first)]) == [first]
    ensures Descriptions([Child(first), Child(second)]) == [first, second]
  {
    var one, both := [Child(second)], [Child(first), Child(second)];
    assert both[1..] == one && one[1..] == [] && [Child(first)][1..] == [];
    assert Descriptions(one) == [second];
  }

  lemma LoadDescriptions(r: Runtime, tag: string)
    ensures Descriptions(LoadPlan(r, tag)) == LoadCommands(r, tag)
  {
    match r {
      case Podman => DescribeTwo("podman save " + tag, "kind load image-archive");
      case Docker => DescribeTwo("kind load docker-image", "");
    }
  }

  lemma RestartDescriptions(s: Service)
    ensures Descriptions(RestartPlan(s)) == RestartCommands(s)
  {
    var restart := "kubectl rollout restart ";
    match s {
      case Ac =>
        DescribeTwo(restart + "ac-service", "");
        assert restart + "ac-service" == "kubectl rollout restart ac-service";
      case Gc =>
        DescribeTwo(restart + "gc-service", "");
        assert restart + "gc-service" == "kubectl rollout restart gc-service";
      case Mc =>
        DescribeTwo(restart + "mc-0", restart + "mc-1");
        assert restart + "mc-0" == "kubectl rollout restart mc-0" && restart + "mc-1" == "kubectl rollout restart mc-1";
      case Mh =>
        DescribeTwo(restart + "mh-0", restart + "mh-1");
        assert restart + "mh-0" == "kubectl rollout restart mh-0" && restart + "mh-1" == "kubectl rollout restart mh-1";
    }
  }

  lemma RebuildDescriptions(r: Runtime, s: Service)
    ensures Descriptions(RebuildPlan(r, s)) == RebuildCommands(r, s)
  {
    var build := RuntimeName(r) + " build " + ServiceName(s);
    DescribeTwo(build, "");
    DescriptionsConcat([Child(build)], LoadPlan(r, ImageTag(s)));
    DescriptionsConcat([Child(build)] + LoadPlan(r, ImageTag(s)), RestartPlan(s));
    LoadDescriptions(r, ImageTag(s));
    RestartDescriptions(s);
    if r == Podman { PodmanTexts(s); } else { DockerTexts(s); }
  }

  lemma DeployText(s: Service)
    ensures "setup.sh --skip-build --only " + ServiceName(s) == DeployCommand(s)
  {
  }

  lemma PodmanTexts(s: Service)
    ensures ["podman" + " build " + ServiceName(s)] + LoadCommands(Podman, ImageTag(s)) + RestartCommands(s)
         == RebuildCommands(Podman, s)
  {
    BuildTexts(s);
    var commands := RebuildCommands(Podman, s);
    assert [commands[0]] + [commands[1], commands[2]] + RestartCommands(s) == commands;
  }

  lemma DockerTexts(s: Service)
    ensures ["docker" + " build " + ServiceName(s)] + LoadCommands(Docker, ImageTag(s)) + RestartCommands(s)
         == RebuildCommands(Docker, s)
  {
    BuildTexts(s);
  }

  lemma BuildTexts(s: Service)
    ensures "podman" + " build " + ServiceName(s) == RebuildCommands(Podman, s)[0]
    ensures "docker" + " build " + ServiceName(s) == RebuildCommands(Docker, s)[0]
  {
  }

  lemma {:induction false} RebuildAllDescriptions(r: Runtime, services: seq<Service>)
    ensures Descriptions(RebuildAllPlan(r, services)) == Rebuilds(r, services)
    ensures forall item :: item in RebuildAllPlan(r, services) ==> item.Child?
  {
    if services != [] {
      var init, last := services[..|services| - 1], services[|services| - 1];
      RebuildAllDescriptions(r, init);
      RebuildDescriptions(r, last);
      RebuildIsChildren(r, last);
      assert forall item :: item in RebuildAllPlan(r, services) ==> item in RebuildAllPlan(r, init) || item in RebuildPlan(r, last);
      DescriptionsConcat(RebuildAllPlan(r, init), RebuildPlan(r, last));
    }
  }

  lemma RebuildIsChildren(r: Runtime, s: Service)
    ensures forall item :: item in RebuildPlan(r, s) ==> item.Child?
  {
  }

  lemma PlanGrows(r: Runtime, services: seq<Service>, i: nat)
    requires i < |services|
    ensures RebuildAllPlan(r, services[..i + 1]) == RebuildAllPlan(r, services[..i]) + RebuildPlan(r, services[i])
  {
    assert services[..i + 1][..i] == services[..i];
  }

  function Descriptions(plan: seq<Item>): seq<string> {
    if plan == [] then []
    else (if plan[0].Child? then [plan[0].description] else []) + Descriptions(plan[1..])
  }

  // ---------------------------------------------------------------------------
  // Restarts stand behind their image
  // ---------------------------------------------------------------------------

  function Deployments(s: Service): seq<string> {
    match s
    case Ac => ["ac-service"]
    case Gc => ["gc-service"]
    case Mc => ["mc-0", "mc-1"]
    case Mh => ["mh-0", "mh-1"]
  }

  /** The commands that build a service's image and load it into the cluster. */
  function ImageCommands(r: Runtime, s: Service): seq<string> {
    match r
    case Podman => ["podman" + " build " + ServiceName(s), "podman save " + ImageTag(s), "kind load image-archive"]
    case Docker => ["docker" + " build " + ServiceName(s), "kind load docker-image"]
  }

  function Restart(deployment: string): string {
    "kubectl rollout restart " + deployment
  }

  /** `part` stands in `all` from position `j` on. */
  predicate StandsAt(all: seq<string>, j: nat, part: seq<string>) {
    j + |part| <= |all| && forall i :: 0 <= i < |part| ==> all[j + i] == part[i]
  }

  lemma SameBehind(before: seq<string>, all: seq<string>, after: seq<string>, l: nat)
    requires before <= after <= before + all && |before| + l < |after|
    ensures l < |all| && after[|before| + l] == all[l]
  {
    assert after[|before| + l] == (before + all)[|before| + l];
  }

  lemma StandsBehind(before: seq<string>, all: seq<string>, after: seq<string>, l: nat, part: seq<string>)
    requires before <= after <= before + all && StandsAt(all, l, part) && |before| + l + |part| <= |after|
    ensures StandsAt(after, |before| + l, part)
  {
    forall i | 0 <= i < |part| ensures after[|before| + l + i] == part[i] {
      SameBehind(before, all, after, l + i);
    }
  }

  lemma StandsInFirst(a: seq<string>, b: seq<string>, j: nat, part: seq<string>)
    requires StandsAt(a, j, part)
    ensures StandsAt(a + b, j, part)
  {
  }

  lemma StandsInSecond(a: seq<string>, b: seq<string>, part: seq<string>, rest: seq<string>)
    requires b == part + rest
    ensures StandsAt(a + b, |a|, part)
  {
  }

  lemma {:induction false} ImageBeforeRestart(r: Runtime, services: seq<Service>, k: nat, s: Service, deployment: string)
    returns (j: nat)
    requires k < |Rebuilds(r, services)| && deployment in Deployments(s) && Rebuilds(r, services)[k] == Restart(deployment)
    ensures j + |ImageCommands(r, s)| <= k && StandsAt(Rebuilds(r, services), j, ImageCommands(r, s))
  {
    var init, last := services[..|services| - 1], services[|services| - 1];
    var a, b := Rebuilds(r, init), RebuildCommands(r, last);
    if k < |a| {
      j := ImageBeforeRestart(r, init, k, s, deployment);
      StandsInFirst(a, b, j, ImageCommands(r, s));
    } else {
      RestartNamesService(r, last, k - |a|, s, deployment);
      ImageThenRestarts(r, s);
      j := |a|;
      StandsInSecond(a, b, ImageCommands(r, s), RestartCommands(s));
    }
  }

  lemma {:induction false} RestartOf(r: Runtime, services: seq<Service>, s: Service, deployment: string) returns (k: nat)
    requires s in services && deployment in Deployments(s)
    ensures k < |Rebuilds(r, services)| && Rebuilds(r, services)[k] == Restart(deployment)
  {
    var init, last := services[..|services| - 1], services[|services| - 1];
    if s == last {
      var i := RestartInRebuild(r, s, deployment);
      k := |Rebuilds(r, init)| + i;
    } else {
      assert services == init + [last];
      k := RestartOf(r, init, s, deployment);
    }
  }

  lemma RestartInRebuild(r: Runtime, s: Service, deployment: string) returns (i: nat)
    requires deployment in Deployments(s)
    ensures i < |RebuildCommands(r, s)| && RebuildCommands(r, s)[i] == Restart(deployment)
  {
    ImageThenRestarts(r, s);
    RestartsAreOfDeployments(s);
    var j :| 0 <= j < |Deployments(s)| && Deployments(s)[j] == deployment;
    i := |ImageCommands(r, s)| + j;
  }

  lemma ImageThenRestarts(r: Runtime, s: Service)
    ensures ImageCommands(r, s) + RestartCommands(s) == RebuildCommands(r, s)
  {
    if r == Podman { PodmanTexts(s); } else { DockerTexts(s); }
    assert ImageCommands(r, s) == [ImageCommands(r, s)[0]] + LoadCommands(r, ImageTag(s));
  }

  lemma RestartsAreOfDeployments(s: Service)
    ensures |RestartCommands(s)| == |Deployments(s)|
    ensures forall i :: 0 <= i < |Deployments(s)| ==> RestartCommands(s)[i] == Restart(Deployments(s)[i])
  {
    RestartTexts();
  }

  lemma RestartTexts()
    ensures Restart("ac-service") == "kubectl rollout restart ac-service"
    ensures Restart("gc-service") == "kubectl rollout restart gc-service"
    ensures Restart("mc-0") == "kubectl rollout restart mc-0" && Restart("mc-1") == "kubectl rollout restart mc-1"
    ensures Restart("mh-0") == "kubectl rollout restart mh-0" && Restart("mh-1") == "kubectl rollout restart mh-1"
  {
  }

  /** A restart among the commands of a rebuild is of the service rebuilt. */
  lemma RestartNamesService(r: Runtime, rebuilt: Service, i: nat, s: Service, deployment: string)
    requires i < |RebuildCommands(r, rebuilt)| && deployment in Deployments(s)
    requires RebuildCommands(r, rebuilt)[i] == Restart(deployment)
    ensures rebuilt == s && i >= |ImageCommands(r, s)|
  {
    ImageThenRestarts(r, rebuilt);
    var n := |ImageCommands(r, rebuilt)|;
    if i < n {
      NoRestartInImage(r, rebuilt, i, deployment);
    } else {
      RestartsAreOfDeployments(rebuilt);
      var d := Deployments(rebuilt)[i - n];
      assert Restart(d) == Restart(deployment);
      assert Restart(d)[24..] == d && Restart(deployment)[24..] == deployment;
      DeploymentNamesService(rebuilt, s, d);
    }
  }

  lemma NoRestartInImage(r: Runtime, s: Service, i: nat, deployment: string)
    requires i < |ImageCommands(r, s)|
    ensures ImageCommands(r, s)[i] != Restart(deployment)
  {
    assert Restart(deployment)[..2] == "ku" && Restart(deployment)[0] == 'k' && Restart(deployment)[1] == 'u';
    assert ImageCommands(r, s)[i][0] != 'k' || ImageCommands(r, s)[i][1] == 'i';
  }

  lemma DeploymentNamesService(a: Service, b: Service, d: string)
    requires d in Deployments(a) && d in Deployments(b)
    ensures a == b
  {
    assert d[0] == ServiceName(a)[0] && d[1] == ServiceName(a)[1];
    assert d[0] == ServiceName(b)[0] && d[1] == ServiceName(b)[1];
  }
}
