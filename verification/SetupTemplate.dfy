/**
 The variables that setup substitutes into the kind-config template (`template_env_vars` in
 `ports.rs`, `cmd_setup` in `commands.rs`): each names its own host port, and the
 substitution as it is used does not depend on the map's iteration order.
 */
module SetupTemplate {
  import opened Prelude
  import opened Ports
  import opened Template
  import opened TemplateText
  import opened SetupTable

  // ---------------------------------------------------------------------------
  // Ports as text
  // ---------------------------------------------------------------------------

  /** A port's text reads back as the port and has no leading zero. */
  lemma {:induction false} DecimalRoundTrip(n: nat)
    ensures ValueOf(Decimal(n)) == n
    ensures n > 0 ==> Decimal(n)[0] != '0'
  {
    LastDigit(n);
    if n >= 10 { DecimalRoundTrip(n / 10); }
  }

  lemma DecimalInjective(m: nat, n: nat)
    requires Decimal(m) == Decimal(n)
    ensures m == n
  {
    DecimalRoundTrip(m);
    DecimalRoundTrip(n);
  }

  // ---------------------------------------------------------------------------
  // What setup can rely on
  // ---------------------------------------------------------------------------

  /** Which variable names which port: for every slot the twenty ports have their places in
      the slot's block, and there are no other variables but the two given. */
  lemma EveryVariableHasItsPort(slot: nat, ip: string, clusterName: string)
    requires slot < 50
    ensures var vars := SetupVars(Allocation(BasePort(slot), slot), ip, clusterName);
            && CarriesControllerPorts(vars, slot) && CarriesMcPorts(vars, slot)
            && CarriesMhPorts(vars, slot) && CarriesClusterPorts(vars, slot)
            && vars.Keys == PORT_NAMES + {"HOST_GATEWAY_IP", "CLUSTER_NAME"}
            && vars["HOST_GATEWAY_IP"] == ip && vars["CLUSTER_NAME"] == clusterName
  {
    var alloc := Allocation(BasePort(slot), slot);
    var vars := SetupVars(alloc, ip, clusterName);
    SetupCarriesTable(slot, ip, clusterName);
    AllCarried(vars, slot);
    PortNamesCarried(vars, slot);
    NoOtherPorts(alloc);
    OtherNames();
  }

  ghost predicate NamesPortOf(slot: nat, text: string) {
    exists port :: 20_000 + 200 * slot <= port < 20_200 + 200 * slot && text == Decimal(port)
  }

  ghost predicate DistinctPorts(slot: nat, vars: map<string, string>) {
    forall a, b :: a in vars && b in vars && a != b ==> vars[a] != vars[b] && NamesPortOf(slot, vars[a])
  }

  /** Two of setup's port variables never get the same port, and all lie in the slot's block. */
  lemma HostPortsAreDistinct(slot: nat)
    requires slot < 50
    ensures DistinctPorts(slot, PortVars(Allocation(BasePort(slot), slot), PORT_VARS))
  {
    TableOffsetsAscend();
    TablePortsAreDistinct(slot, PORT_VARS);
  }

  lemma TablePortsAreDistinct(slot: nat, table: seq<PortVar>)
    requires slot < NUM_SLOTS && OffsetsAscend(table)
    ensures DistinctPorts(slot, PortVars(Allocation(BasePort(slot), slot), table))
  {
    var alloc := Allocation(BasePort(slot), slot);
    var vars := PortVars(alloc, table);
    forall a, b | a in vars && b in vars && a != b ensures vars[a] != vars[b] && NamesPortOf(slot, vars[a]) {
      var i := VarComesFromTable(alloc, table, a);
      var j := VarComesFromTable(alloc, table, b);
      assert i < j || j < i;
      PortsStayInRange(slot, table[i].1);
      PortsStayInRange(slot, table[j].1);
      if vars[a] == vars[b] {
        DecimalInjective(Port(alloc, table[i].1), Port(alloc, table[j].1));
      }
    }
  }

  lemma SetupVarsArePlain(alloc: Allocation, gatewayIp: string, clusterName: string)
    requires Plain(gatewayIp) && gatewayIp != "" && Plain(clusterName) && clusterName != ""
    ensures PlainVars(SetupVars(alloc, gatewayIp, clusterName)) && NoEmptyValue(SetupVars(alloc, gatewayIp, clusterName))
  {
    var vars := SetupVars(alloc, gatewayIp, clusterName);
    assert Plain("HOST_GATEWAY_IP");
    assert Plain("CLUSTER_NAME");
    NamesArePlain();
    forall k | k in vars ensures Plain(k) && Plain(vars[k]) && vars[k] != "" {
      if k != "HOST_GATEWAY_IP" && k != "CLUSTER_NAME" {
        var i := VarComesFromTable(alloc, PORT_VARS, k);
      }
    }
  }

  /** The kind configuration is the same text for every iteration order of the map. */
  lemma SetupTextIsOrderFree(template: string, order: seq<string>, alloc: Allocation, gatewayIp: string, clusterName: string)
    requires Plain(gatewayIp) && gatewayIp != "" && Plain(clusterName) && clusterName != ""
    requires NoNesting(template, false) && Distinct(order)
    requires forall k :: k in order <==> k in SetupVars(alloc, gatewayIp, clusterName)
    ensures Sequential(template, order, SetupVars(alloc, gatewayIp, clusterName))
         == Simultaneous(template, SetupVars(alloc, gatewayIp, clusterName))
  {
    SetupVarsArePlain(alloc, gatewayIp, clusterName);
    AnyOrderIsSimultaneous(template, order, SetupVars(alloc, gatewayIp, clusterName));
  }

  /** A placeholder for any of the variables becomes that variable's value, in whatever order
      the map is iterated. */
  lemma PlaceholderBecomesValue(key: string, order: seq<string>, alloc: Allocation, gatewayIp: string, clusterName: string)
    requires Plain(gatewayIp) && gatewayIp != "" && Plain(clusterName) && clusterName != ""
    requires Distinct(order) && forall k :: k in order <==> k in SetupVars(alloc, gatewayIp, clusterName)
    requires key in SetupVars(alloc, gatewayIp, clusterName)
    ensures Sequential("${" + key + "}", order, SetupVars(alloc, gatewayIp, clusterName))
         == SetupVars(alloc, gatewayIp, clusterName)[key]
  {
    var vars := SetupVars(alloc, gatewayIp, clusterName);
    var text := Placeholder(key);
    SetupVarsArePlain(alloc, gatewayIp, clusterName);
    LonePlaceholder(key);
    SetupTextIsOrderFree(text, order, alloc, gatewayIp, clusterName);
    assert text + "" == text && vars[key] + "" == vars[key];
    KnownAtStart(key, "", vars);
  }

  lemma LonePlaceholder(key: string)
    requires Plain(key)
    ensures NoNesting(Placeholder(key), false)
  {
    var s := Placeholder(key);
    assert s == "${" + (key + "}") && s[2..] == key + "}";
    StartsOpen(s);
    NoNestingSkipsPlain(key, "}", true);
    StartsOpen("}");
    assert "}"[1..] == "";
  }
}
