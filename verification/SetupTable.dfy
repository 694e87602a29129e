/**
 The table of port variables behind `SetupTemplate`.

 The source inserts the variables one by one (`template_env_vars` in `ports.rs`), and
 `cmd_setup` adds the name of the cluster.  `PORT_VARS` lists the names of the port
 variables with their offsets, in the order of insertion; `SetupVars` is the finished map.

 That no name stands in the table twice is shown by `Place`, which finds the position of
 a name from the letters in which the names differ.  With it the map can be read off the
 table entry by entry: `CarriesTable`.

 The names are also shown to be free of placeholder syntax.
 */
module SetupTable {
  import opened Prelude
  import opened Ports
  import opened TemplateText

  type PortVar = (string, nat)

  const CONTROLLER_VARS: seq<PortVar> := [
    ("HOST_PORT_AC_HTTP", AC_HTTP), ("HOST_PORT_GC_HTTP", GC_HTTP), ("HOST_PORT_GC_GRPC", GC_GRPC)]

  const MC_VARS: seq<PortVar> := [
    ("HOST_PORT_MC_0_HEALTH", MC_0_HEALTH), ("HOST_PORT_MC_0_GRPC", MC_0_GRPC),
    ("HOST_PORT_MC_0_WEBTRANSPORT", MC_0_WEBTRANSPORT),
    ("HOST_PORT_MC_1_HEALTH", MC_1_HEALTH), ("HOST_PORT_MC_1_GRPC", MC_1_GRPC),
    ("HOST_PORT_MC_1_WEBTRANSPORT", MC_1_WEBTRANSPORT)]

  const MH_VARS: seq<PortVar> := [
    ("HOST_PORT_MH_0_HEALTH", MH_0_HEALTH), ("HOST_PORT_MH_0_GRPC", MH_0_GRPC),
    ("HOST_PORT_MH_0_WEBTRANSPORT", MH_0_WEBTRANSPORT),
    ("HOST_PORT_MH_1_HEALTH", MH_1_HEALTH), ("HOST_PORT_MH_1_GRPC", MH_1_GRPC),
    ("HOST_PORT_MH_1_WEBTRANSPORT", MH_1_WEBTRANSPORT)]

  const CLUSTER_VARS: seq<PortVar> := [
    ("HOST_PORT_PROMETHEUS", PROMETHEUS), ("HOST_PORT_GRAFANA", GRAFANA), ("HOST_PORT_LOKI", LOKI),
    ("HOST_PORT_K8S_API", K8S_API), ("HOST_PORT_K8S_API_HOST", K8S_API_HOST)]

  /** Variable names with their port offsets, in the order they are inserted. */
  const PORT_VARS: seq<PortVar> := CONTROLLER_VARS + MC_VARS + MH_VARS + CLUSTER_VARS

  function PortVars(alloc: Allocation, table: seq<PortVar>): map<string, string> {
    if table == [] then map[]
    else
      var last := table[|table| - 1];
      PortVars(alloc, table[..|table| - 1])[last.0 := Decimal(Port(alloc, last.1))]
  }

  function SetupVars(alloc: Allocation, gatewayIp: string, clusterName: string): map<string, string> {
    PortVars(alloc, PORT_VARS)["HOST_GATEWAY_IP" := gatewayIp]["CLUSTER_NAME" := clusterName]
  }

  lemma {:induction false} VarComesFromTable(alloc: Allocation, table: seq<PortVar>, key: string) returns (i: nat)
    requires key in PortVars(alloc, table)
    ensures i < |table| && table[i].0 == key && PortVars(alloc, table)[key] == Decimal(Port(alloc, table[i].1))
  {
    var n := |table| - 1;
    if table[n].0 == key {
      i := n;
    } else {
      i := VarComesFromTable(alloc, table[..n], key);
    }
  }

  // ---------------------------------------------------------------------------
  // Ports as text
  // ---------------------------------------------------------------------------

  /** The number a text of decimal digits stands for. */
  function ValueOf(digits: string): int
    requires forall k :: 0 <= k < |digits| ==> IsDigit(digits[k])
  {
    if digits == "" then 0
    else 10 * ValueOf(digits[..|digits| - 1]) + (digits[|digits| - 1] as int - '0' as int)
  }

  lemma LastDigit(n: nat)
    ensures var s := Decimal(n); s[|s| - 1] == '0' + (n % 10) as char
    ensures n >= 10 ==> var s := Decimal(n); |s| > 1 && Decimal(n / 10) == s[..|s| - 1]
    ensures n < 10 ==> |Decimal(n)| == 1
  {
  }

  // ---------------------------------------------------------------------------
  // The names
  // ---------------------------------------------------------------------------

  predicate PlainNames(table: seq<PortVar>) {
    forall i :: 0 <= i < |table| ==> Plain(table[i].0)
  }

  lemma Mc0Names()
    ensures Plain("HOST_PORT_MC_0_HEALTH") && Plain("HOST_PORT_MC_0_GRPC") && Plain("HOST_PORT_MC_0_WEBTRANSPORT")
  {
  }

  lemma Mc1Names()
    ensures Plain("HOST_PORT_MC_1_HEALTH") && Plain("HOST_PORT_MC_1_GRPC") && Plain("HOST_PORT_MC_1_WEBTRANSPORT")
  {
  }

  lemma McNames()
    ensures PlainNames(MC_VARS)
  {
    Mc0Names();
    Mc1Names();
  }

  lemma Mh0Names()
    ensures Plain("HOST_PORT_MH_0_HEALTH") && Plain("HOST_PORT_MH_0_GRPC") && Plain("HOST_PORT_MH_0_WEBTRANSPORT")
  {
  }

  lemma Mh1Names()
    ensures Plain("HOST_PORT_MH_1_HEALTH") && Plain("HOST_PORT_MH_1_GRPC") && Plain("HOST_PORT_MH_1_WEBTRANSPORT")
  {
  }

  lemma MhNames()
    ensures PlainNames(MH_VARS)
  {
    Mh0Names();
    Mh1Names();
  }

  lemma NamesArePlain()
    ensures PlainNames(PORT_VARS)
  {
    McNames();
    MhNames();
    assert Plain("HOST_PORT_PROMETHEUS") && Plain("HOST_PORT_GRAFANA") && Plain("HOST_PORT_LOKI");
    assert Plain("HOST_PORT_K8S_API") && Plain("HOST_PORT_K8S_API_HOST");
  }

  /** Position of a name in the table, by the letters in which the names differ. */
  function Place(name: string): int {
    if |name| < 14 || name[5] != 'P' then -1
    else match name[10]
      case 'A' => 0
      case 'G' => if name[11] == 'R' then 16 else if name[13] == 'H' then 1 else 2
      case 'M' =>
        if |name| < 16 then -1
        else
          var probe := if name[15] == 'H' then 0 else if name[15] == 'G' then 1 else 2;
          3 + (if name[11] == 'C' then 0 else 6) + (if name[13] == '0' then 0 else 3) + probe
      case 'P' => 15
      case 'L' => 17
      case _ => if |name| == 17 then 18 else 19
  }

  predicate Placed(table: seq<PortVar>, from: nat) {
    forall i :: 0 <= i < |table| ==> Place(table[i].0) == from + i
  }

  lemma ControllerNamesPlaced()
    ensures Placed(CONTROLLER_VARS, 0) && Placed(CLUSTER_VARS, 15)
  {
  }

  lemma McNamesPlaced()
    ensures Placed(MC_VARS, 3)
  {
  }

  lemma MhNamesPlaced()
    ensures Placed(MH_VARS, 9)
  {
  }

  /** No name stands in the table twice. */
  lemma NamesPlaced()
    ensures Placed(PORT_VARS, 0)
  {
    ControllerNamesPlaced();
    McNamesPlaced();
    MhNamesPlaced();
  }

  lemma {:induction false} VarAt(alloc: Allocation, table: seq<PortVar>, i: nat)
    requires i < |table| && Placed(table, 0)
    ensures table[i].0 in PortVars(alloc, table)
    ensures PortVars(alloc, table)[table[i].0] == Decimal(Port(alloc, table[i].1))
  {
    var n := |table| - 1;
    if i < n {
      assert Place(table[i].0) != Place(table[n].0);
      VarAt(alloc, table[..n], i);
    }
  }

  // ---------------------------------------------------------------------------
  // What the map carries
  // ---------------------------------------------------------------------------

  /** `name` is replaced by the port at `offset` of the block of `slot`. */
  predicate Carries(vars: map<string, string>, name: string, slot: nat, offset: nat) {
    name in vars && vars[name] == Decimal(20_000 + 200 * slot + offset)
  }

  lemma CarriesFromTable(slot: nat, ip: string, clusterName: string, i: nat)
    requires slot < NUM_SLOTS && i < |PORT_VARS| && Placed(PORT_VARS, 0) && OffsetsAscend(PORT_VARS)
    ensures Carries(SetupVars(Allocation(BasePort(slot), slot), ip, clusterName), PORT_VARS[i].0, slot, PORT_VARS[i].1)
  {
    var alloc := Allocation(BasePort(slot), slot);
    var name, offset := PORT_VARS[i].0, PORT_VARS[i].1;
    VarAt(alloc, PORT_VARS, i);
    OtherNames();
    assert Place(name) == i;
    assert offset < STRIDE;
    PortsStayInRange(slot, offset);
  }

  lemma OtherNames()
    ensures Place("HOST_GATEWAY_IP") == -1 && Place("CLUSTER_NAME") == -1
  {
  }

  ghost predicate CarriesControllerPorts(vars: map<string, string>, slot: nat) {
    && Carries(vars, "HOST_PORT_AC_HTTP", slot, 0)
    && Carries(vars, "HOST_PORT_GC_HTTP", slot, 1)
    && Carries(vars, "HOST_PORT_GC_GRPC", slot, 2)
  }

  ghost predicate CarriesMcPorts(vars: map<string, string>, slot: nat) {
    && Carries(vars, "HOST_PORT_MC_0_HEALTH", slot, 10)
    && Carries(vars, "HOST_PORT_MC_0_GRPC", slot, 11)
    && Carries(vars, "HOST_PORT_MC_0_WEBTRANSPORT", slot, 12)
    && Carries(vars, "HOST_PORT_MC_1_HEALTH", slot, 13)
    && Carries(vars, "HOST_PORT_MC_1_GRPC", slot, 14)
    && Carries(vars, "HOST_PORT_MC_1_WEBTRANSPORT", slot, 15)
  }

  ghost predicate CarriesMhPorts(vars: map<string, string>, slot: nat) {
    && Carries(vars, "HOST_PORT_MH_0_HEALTH", slot, 20)
    && Carries(vars, "HOST_PORT_MH_0_GRPC", slot, 21)
    && Carries(vars, "HOST_PORT_MH_0_WEBTRANSPORT", slot, 22)
    && Carries(vars, "HOST_PORT_MH_1_HEALTH", slot, 23)
    && Carries(vars, "HOST_PORT_MH_1_GRPC", slot, 24)
    && Carries(vars, "HOST_PORT_MH_1_WEBTRANSPORT", slot, 25)
  }

  ghost predicate CarriesClusterPorts(vars: map<string, string>, slot: nat) {
    && Carries(vars, "HOST_PORT_PROMETHEUS", slot, 100)
    && Carries(vars, "HOST_PORT_GRAFANA", slot, 101)
    && Carries(vars, "HOST_PORT_LOKI", slot, 102)
    && Carries(vars, "HOST_PORT_K8S_API", slot, 103)
    && Carries(vars, "HOST_PORT_K8S_API_HOST", slot, 104)
  }

  const PORT_NAMES: set<string> := {
    "HOST_PORT_AC_HTTP", "HOST_PORT_GC_HTTP", "HOST_PORT_GC_GRPC",
    "HOST_PORT_MC_0_HEALTH", "HOST_PORT_MC_0_GRPC", "HOST_PORT_MC_0_WEBTRANSPORT",
    "HOST_PORT_MC_1_HEALTH", "HOST_PORT_MC_1_GRPC", "HOST_PORT_MC_1_WEBTRANSPORT",
    "HOST_PORT_MH_0_HEALTH", "HOST_PORT_MH_0_GRPC", "HOST_PORT_MH_0_WEBTRANSPORT",
    "HOST_PORT_MH_1_HEALTH", "HOST_PORT_MH_1_GRPC", "HOST_PORT_MH_1_WEBTRANSPORT",
    "HOST_PORT_PROMETHEUS", "HOST_PORT_GRAFANA", "HOST_PORT_LOKI",
    "HOST_PORT_K8S_API", "HOST_PORT_K8S_API_HOST"
  }

  lemma TableNames()
    ensures forall i :: 0 <= i < |PORT_VARS| ==> PORT_VARS[i].0 in PORT_NAMES
  {
    assert forall i :: 0 <= i < |CONTROLLER_VARS| ==> CONTROLLER_VARS[i].0 in PORT_NAMES;
    assert forall i :: 0 <= i < |MC_VARS| ==> MC_VARS[i].0 in PORT_NAMES;
    assert forall i :: 0 <= i < |MH_VARS| ==> MH_VARS[i].0 in PORT_NAMES;
    assert forall i :: 0 <= i < |CLUSTER_VARS| ==> CLUSTER_VARS[i].0 in PORT_NAMES;
  }

  ghost predicate CarriesTable(vars: map<string, string>, slot: nat, table: seq<PortVar>) {
    forall i :: 0 <= i < |table| ==> Carries(vars, table[i].0, slot, table[i].1)
  }

  lemma ControllerCarried(vars: map<string, string>, slot: nat)
    requires CarriesTable(vars, slot, CONTROLLER_VARS)
    ensures CarriesControllerPorts(vars, slot)
  {
    assert CONTROLLER_VARS[0] == ("HOST_PORT_AC_HTTP", 0);
    assert CONTROLLER_VARS[1] == ("HOST_PORT_GC_HTTP", 1);
    assert CONTROLLER_VARS[2] == ("HOST_PORT_GC_GRPC", 2);
  }

  lemma McCarried(vars: map<string, string>, slot: nat)
    requires CarriesTable(vars, slot, MC_VARS)
    ensures CarriesMcPorts(vars, slot)
  {
    assert MC_VARS[0] == ("HOST_PORT_MC_0_HEALTH", 10);
    assert MC_VARS[1] == ("HOST_PORT_MC_0_GRPC", 11);
    assert MC_VARS[2] == ("HOST_PORT_MC_0_WEBTRANSPORT", 12);
    assert MC_VARS[3] == ("HOST_PORT_MC_1_HEALTH", 13);
    assert MC_VARS[4] == ("HOST_PORT_MC_1_GRPC", 14);
    assert MC_VARS[5] == ("HOST_PORT_MC_1_WEBTRANSPORT", 15);
  }

  lemma MhCarried(vars: map<string, string>, slot: nat)
    requires CarriesTable(vars, slot, MH_VARS)
    ensures CarriesMhPorts(vars, slot)
  {
    assert MH_VARS[0] == ("HOST_PORT_MH_0_HEALTH", 20);
    assert MH_VARS[1] == ("HOST_PORT_MH_0_GRPC", 21);
    assert MH_VARS[2] == ("HOST_PORT_MH_0_WEBTRANSPORT", 22);
    assert MH_VARS[3] == ("HOST_PORT_MH_1_HEALTH", 23);
    assert MH_VARS[4] == ("HOST_PORT_MH_1_GRPC", 24);
    assert MH_VARS[5] == ("HOST_PORT_MH_1_WEBTRANSPORT", 25);
  }

  lemma ClusterCarried(vars: map<string, string>, slot: nat)
    requires CarriesTable(vars, slot, CLUSTER_VARS)
    ensures CarriesClusterPorts(vars, slot)
  {
    assert CLUSTER_VARS[0] == ("HOST_PORT_PROMETHEUS", 100);
    assert CLUSTER_VARS[1] == ("HOST_PORT_GRAFANA", 101);
    assert CLUSTER_VARS[2] == ("HOST_PORT_LOKI", 102);
    assert CLUSTER_VARS[3] == ("HOST_PORT_K8S_API", 103);
    assert CLUSTER_VARS[4] == ("HOST_PORT_K8S_API_HOST", 104);
  }

  lemma SetupCarriesTable(slot: nat, ip: string, clusterName: string)
    requires slot < NUM_SLOTS
    ensures CarriesTable(SetupVars(Allocation(BasePort(slot), slot), ip, clusterName), slot, PORT_VARS)
  {
    NamesPlaced();
    TableOffsetsAscend();
    forall i | 0 <= i < |PORT_VARS|
      ensures Carries(SetupVars(Allocation(BasePort(slot), slot), ip, clusterName), PORT_VARS[i].0, slot, PORT_VARS[i].1)
    {
      CarriesFromTable(slot, ip, clusterName, i);
    }
  }

  lemma PartsCarried(vars: map<string, string>, slot: nat, a: seq<PortVar>, b: seq<PortVar>)
    requires CarriesTable(vars, slot, a + b)
    ensures CarriesTable(vars, slot, a) && CarriesTable(vars, slot, b)
  {
    forall i | 0 <= i < |a| ensures Carries(vars, a[i].0, slot, a[i].1) { assert (a + b)[i] == a[i]; }
    forall i | 0 <= i < |b| ensures Carries(vars, b[i].0, slot, b[i].1) { assert (a + b)[|a| + i] == b[i]; }
  }

  lemma GroupsCarried(vars: map<string, string>, slot: nat)
    requires CarriesTable(vars, slot, PORT_VARS)
    ensures CarriesTable(vars, slot, CONTROLLER_VARS) && CarriesTable(vars, slot, MC_VARS)
    ensures CarriesTable(vars, slot, MH_VARS) && CarriesTable(vars, slot, CLUSTER_VARS)
  {
    PartsCarried(vars, slot, CONTROLLER_VARS + MC_VARS + MH_VARS, CLUSTER_VARS);
    PartsCarried(vars, slot, CONTROLLER_VARS + MC_VARS, MH_VARS);
    PartsCarried(vars, slot, CONTROLLER_VARS, MC_VARS);
  }

  lemma AllCarried(vars: map<string, string>, slot: nat)
    requires CarriesTable(vars, slot, PORT_VARS)
    ensures CarriesControllerPorts(vars, slot) && CarriesMcPorts(vars, slot)
    ensures CarriesMhPorts(vars, slot) && CarriesClusterPorts(vars, slot)
  {
    GroupsCarried(vars, slot);
    ControllerCarried(vars, slot);
    McCarried(vars, slot);
    MhCarried(vars, slot);
    ClusterCarried(vars, slot);
  }

  lemma PortNamesCarried(vars: map<string, string>, slot: nat)
    requires CarriesControllerPorts(vars, slot) && CarriesMcPorts(vars, slot)
    requires CarriesMhPorts(vars, slot) && CarriesClusterPorts(vars, slot)
    ensures PORT_NAMES <= vars.Keys
  {
  }

  lemma NoOtherPorts(alloc: Allocation)
    ensures PortVars(alloc, PORT_VARS).Keys <= PORT_NAMES
  {
    TableNames();
    forall k | k in PortVars(alloc, PORT_VARS) ensures k in PORT_NAMES {
      var i := VarComesFromTable(alloc, PORT_VARS, k);
    }
  }

  // ---------------------------------------------------------------------------
  // The offsets
  // ---------------------------------------------------------------------------

  ghost predicate OffsetsAscend(table: seq<PortVar>) {
    (forall i :: 0 <= i < |table| ==> table[i].1 < STRIDE)
    && forall i, j :: 0 <= i < j < |table| ==> table[i].1 < table[j].1
  }

  lemma TableOffsetsAscend()
    ensures OffsetsAscend(PORT_VARS)
  {
    JoinAscending(CONTROLLER_VARS, MC_VARS, 10);
    JoinAscending(CONTROLLER_VARS + MC_VARS, MH_VARS, 20);
    JoinAscending(CONTROLLER_VARS + MC_VARS + MH_VARS, CLUSTER_VARS, 100);
  }

  lemma JoinAscending(a: seq<PortVar>, b: seq<PortVar>, bound: nat)
    requires OffsetsAscend(a) && OffsetsAscend(b)
    requires (forall i :: 0 <= i < |a| ==> a[i].1 < bound) && forall i :: 0 <= i < |b| ==> bound <= b[i].1
    ensures OffsetsAscend(a + b)
  {
  }
}
