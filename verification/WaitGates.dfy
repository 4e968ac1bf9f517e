// The wait-gate check (cli/k8s_renderer.py): hosts a workload waits for before it starts,
// held against what the generated policies let through.
module WaitGates {
  import opened Document
  import opened Cidr
  import opened Cluster
  import opened Egress
  import opened Naming
  import opened Resolver
  import opened NetworkPolicy

  /** A gate names a host, which may be an IP literal, and usually a port. */
  datatype Gate = NotAGate | Gate(host: string, ip: Option<Address>, port: PortField)

  /** An enabled workload and its gates, which run only when it renders a container. */
  datatype Gated = Gated(name: string, runs: bool, gates: seq<Gate>)

  /** The rendered Services: their full names, and the names they get in the chart. */
  type ServiceNames = map<string, string>

  // ---------------------------------------------------------------------------
  // Hosts allowed by name
  // ---------------------------------------------------------------------------

  function ScopedName(names: ServiceNames, full: string): Option<string> {
    if full in names then Some(RELEASE + "-" + names[full]) else None
  }

  function OwnHosts(names: ServiceNames, id: string, workloads: seq<Gated>): set<string> {
    if workloads == [] then {}
    else
      var host := ScopedName(names, ServiceName(id, workloads[|workloads| - 1].name));
      OwnHosts(names, id, workloads[..|workloads| - 1]) + if host.Some? then {host.value} else {}
  }

  /** The host of a binding that justifies an edge. */
  function BoundHost(plan: Plan, m: Module, c: Consume): Option<string> {
    if BindingEdge(plan, m, c).Some? && c.host != "" then Some(c.host) else None
  }

  function BoundHosts(plan: Plan, m: Module, consumes: seq<Consume>): set<string> {
    if consumes == [] then {}
    else
      var host := BoundHost(plan, m, consumes[|consumes| - 1]);
      BoundHosts(plan, m, consumes[..|consumes| - 1]) + if host.Some? then {host.value} else {}
  }

  function ById(modules: seq<Module>): map<string, Module> {
    if modules == [] then map[]
    else ById(modules[..|modules| - 1])[modules[|modules| - 1].id := modules[|modules| - 1]]
  }

  /** The module a route of another module leads to, and the Service it reaches there. */
  function RouteTarget(plan: Plan, names: ServiceNames, m: Module, r: Route): Option<(string, string)> {
    if r.NotARoute? || r.contractRef.None? || ParseContractRef(r.contractRef.value).None? then None
    else
      var (target, name) := ParseContractRef(r.contractRef.value).value;
      var entry := HttpEntry(ById(plan.modules), target, name);
      if target == m.id || entry.None? then None
      else
        var full := if entry.value.service != "" then Some(ServiceName(target, entry.value.service))
                    else entry.value.host;
        var host := if full.Some? then ScopedName(names, full.value) else None;
        if host.Some? then Some((target, host.value)) else None
  }

  function RouteHosts(plan: Plan, names: ServiceNames, m: Module, routes: seq<Route>): set<string> {
    if routes == [] then {}
    else
      var target := RouteTarget(plan, names, m, routes[|routes| - 1]);
      RouteHosts(plan, names, m, routes[..|routes| - 1]) + if target.Some? then {target.value.1} else {}
  }

  function AllowedHosts(plan: Plan, names: ServiceNames, m: Module, workloads: seq<Gated>): set<string> {
    OwnHosts(names, m.id, workloads) + BoundHosts(plan, m, m.consumes) + RouteHosts(plan, names, m, RoutesOf(m))
  }

  method FindAllowedHosts(plan: Plan, names: ServiceNames, m: Module, workloads: seq<Gated>)
    returns (allowed: set<string>)
    ensures allowed == AllowedHosts(plan, names, m, workloads)
  {
    var bound: set<string> := {};
    for i := 0 to |m.consumes|
      invariant bound == BoundHosts(plan, m, m.consumes[..i])
    {
      assert m.consumes[..i + 1][..i] == m.consumes[..i];
      var host := BoundHost(plan, m, m.consumes[i]);
      if host.Some? {
        bound := bound + {host.value};
      }
    }
    assert m.consumes[..|m.consumes|] == m.consumes;
    var own := FindOwnHosts(names, m.id, workloads);
    var routed := FindRouteHosts(plan, names, m);
    allowed := own + bound + routed;
  }

  method FindOwnHosts(names: ServiceNames, id: string, workloads: seq<Gated>) returns (own: set<string>)
    ensures own == OwnHosts(names, id, workloads)
  {
    own := {};
    for i := 0 to |workloads|
      invariant own == OwnHosts(names, id, workloads[..i])
    {
      assert workloads[..i + 1][..i] == workloads[..i];
      var host := ScopedName(names, ServiceName(id, workloads[i].name));
      if host.Some? {
        own := own + {host.value};
      }
    }
    assert workloads[..|workloads|] == workloads;
  }

  method FindRouteHosts(plan: Plan, names: ServiceNames, m: Module) returns (routed: set<string>)
    ensures routed == RouteHosts(plan, names, m, RoutesOf(m))
  {
    routed := {};
    var routes := RoutesOf(m);
    for i := 0 to |routes|
      invariant routed == RouteHosts(plan, names, m, routes[..i])
    {
      assert routes[..i + 1][..i] == routes[..i];
      var target := RouteTarget(plan, names, m, routes[i]);
      if target.Some? {
        routed := routed + {target.value.1};
      }
    }
    assert routes[..|routes|] == routes;
  }

  // ---------------------------------------------------------------------------
  // The check
  // ---------------------------------------------------------------------------

  predicate CustomRuleCovers(rule: Rule, ip: Option<Address>, port: Option<int>) {
    && ip.Some?
    && (exists peer :: peer in rule.peers && peer.Block? && In(ip.value, peer.cidr) &&
                       forall x :: x in peer.except ==> !In(ip.value, x))
    && (rule.ports == {} || (port.Some? && PortRule("TCP", port.value) in rule.ports))
  }

  predicate DeclaredCovers(entries: seq<Entry>, ip: Option<Address>, port: Option<int>) {
    exists entry :: entry in entries && EntryCovers(entry, ip, port)
  }

  /** A gate passes on a host allowed by name, a covering declared entry, or a covering custom rule. */
  predicate GatePasses(plan: Plan, allowed: set<string>, id: string, workload: string, g: Gate)
    requires g.Gate?
  {
    || g.host in allowed
    || DeclaredCovers(Lookup(plan.externalEgress, id) + Lookup(plan.workloadEgress, (id, workload)),
                      g.ip, IntOrNone(g.port))
    || exists rule :: rule in Lookup(plan.customEgress, id) && CustomRuleCovers(rule, g.ip, IntOrNone(g.port))
  }

  predicate Flagged(plan: Plan, allowed: set<string>, id: string, w: Gated, g: Gate) {
    w.runs && g.Gate? && !GatePasses(plan, allowed, id, w.name, g)
  }

  /** A gate by the positions of its module, its workload and itself. */
  ghost predicate FlaggedAt(plan: Plan, names: ServiceNames, workloads: seq<seq<Gated>>, i: nat, k: nat, n: nat)
    requires |workloads| == |plan.modules|
  {
    && i < |workloads| && k < |workloads[i]| && n < |workloads[i][k].gates|
    && Flagged(plan, AllowedHosts(plan, names, plan.modules[i], workloads[i]), plan.modules[i].id,
               workloads[i][k], workloads[i][k].gates[n])
  }

  /** E152 for every gate no policy is known to let through; `workloads` go with the plan's modules. */
  method CheckWaitGates(plan: Plan, names: ServiceNames, workloads: seq<seq<Gated>>)
    returns (flagged: seq<(nat, nat, nat)>)
    requires |workloads| == |plan.modules|
    ensures forall i: nat, k: nat, n: nat :: (i, k, n) in flagged <==> FlaggedAt(plan, names, workloads, i, k, n)
  {
    flagged := [];
    for i := 0 to |workloads|
      invariant forall j: nat, k: nat, n: nat :: (j, k, n) in flagged <==>
                  j < i && FlaggedAt(plan, names, workloads, j, k, n)
    {
      var allowed := FindAllowedHosts(plan, names, plan.modules[i], workloads[i]);
      var here := CheckModule(plan, allowed, plan.modules[i].id, workloads[i]);
      ghost var before := flagged;
      flagged := flagged + seq(|here|, q requires 0 <= q < |here| => (i, here[q].0, here[q].1));
      InModule(before, flagged, i, here);
    }
  }

  lemma InModule(before: seq<(nat, nat, nat)>, flagged: seq<(nat, nat, nat)>, i: nat, here: seq<(nat, nat)>)
    requires flagged == before + seq(|here|, q requires 0 <= q < |here| => (i, here[q].0, here[q].1))
    ensures forall j: nat, k: nat, n: nat :: (j, k, n) in flagged <==>
              (j, k, n) in before || (j == i && (k, n) in here)
  {
    forall k: nat, n: nat | (k, n) in here ensures (i, k, n) in flagged {
      var q :| 0 <= q < |here| && here[q] == (k, n);
      assert flagged[|before| + q] == (i, k, n);
    }
  }

  method CheckModule(plan: Plan, allowed: set<string>, id: string, workloads: seq<Gated>)
    returns (flagged: seq<(nat, nat)>)
    ensures forall k: nat, n: nat :: (k, n) in flagged <==>
              k < |workloads| && n < |workloads[k].gates| &&
                Flagged(plan, allowed, id, workloads[k], workloads[k].gates[n])
  {
    flagged := [];
    for i := 0 to |workloads|
      invariant forall k: nat, n: nat :: (k, n) in flagged <==>
                  k < i && n < |workloads[k].gates| && Flagged(plan, allowed, id, workloads[k], workloads[k].gates[n])
    {
      var w := workloads[i];
      for j := 0 to |w.gates|
        invariant forall k: nat, n: nat :: (k, n) in flagged <==>
                    || (k < i && n < |workloads[k].gates| &&
                        Flagged(plan, allowed, id, workloads[k], workloads[k].gates[n]))
                    || (k == i && n < j && Flagged(plan, allowed, id, w, w.gates[n]))
      {
        if Flagged(plan, allowed, id, w, w.gates[j]) {
          flagged := flagged + [(i, j)];
        }
      }
    }
  }

  /** An address in a block and in none of its exceptions. */
  predicate Within(ip: Address, cidr: Network, except: seq<Network>) {
    In(ip, cidr) && forall x :: x in except ==> !In(ip, x)
  }

  /** The gate has an address in one of the blocks, and a TCP port among those listed, if any are. */
  ghost predicate Reaches(g: Gate, cidr: Network, except: seq<Network>, ports: Option<set<PortRule>>)
    requires g.Gate?
  {
    && g.ip.Some? && Within(g.ip.value, cidr, except)
    && (ports.None? || exists n :: Denotes(g.port, n) && PortRule("TCP", n) in ports.value)
  }

  lemma EntryReaches(entry: Entry, g: Gate)
    requires g.Gate?
    ensures EntryCovers(entry, g.ip, IntOrNone(g.port)) <==> Reaches(g, entry.cidr, entry.except, entry.ports)
  {
    forall n ensures IntOrNone(g.port) == Some(n) <==> Denotes(g.port, n) { DenotesIff(g.port, n); }
  }

  /** A rule of the module's own with a block for the gate; without ports it is for all of them. */
  ghost predicate RuleReaches(rule: Rule, g: Gate)
    requires g.Gate?
  {
    exists cidr, except ::
      Block(cidr, except) in rule.peers &&
      Reaches(g, cidr, except, if rule.ports == {} then None else Some(rule.ports))
  }

  lemma CustomReaches(rule: Rule, g: Gate)
    requires g.Gate?
    ensures CustomRuleCovers(rule, g.ip, IntOrNone(g.port)) <==> RuleReaches(rule, g)
  {
    forall n ensures IntOrNone(g.port) == Some(n) <==> Denotes(g.port, n) { DenotesIff(g.port, n); }
    if g.ip.Some? {
      if peer :| peer in rule.peers && peer.Block? && Within(g.ip.value, peer.cidr, peer.except) {
        assert Block(peer.cidr, peer.except) in rule.peers;
      }
    }
  }

  /**
   E152 for exactly the gates of a workload that runs whose host is not allowed, and that
   neither an entry declared for the module or the workload nor a rule of the module's own
   has a block and a port for.
   */
  lemma FlaggedMeans(plan: Plan, allowed: set<string>, id: string, w: Gated, g: Gate)
    ensures Flagged(plan, allowed, id, w, g) <==>
            && w.runs && g.Gate? && g.host !in allowed
            && (id in plan.externalEgress ==>
                  forall e :: e in plan.externalEgress[id] ==> !Reaches(g, e.cidr, e.except, e.ports))
            && ((id, w.name) in plan.workloadEgress ==>
                  forall e :: e in plan.workloadEgress[(id, w.name)] ==> !Reaches(g, e.cidr, e.except, e.ports))
            && (id in plan.customEgress ==> forall rule :: rule in plan.customEgress[id] ==> !RuleReaches(rule, g))
  {
    if g.Gate? {
      forall e ensures EntryCovers(e, g.ip, IntOrNone(g.port)) <==> Reaches(g, e.cidr, e.except, e.ports) {
        EntryReaches(e, g);
      }
      forall rule ensures CustomRuleCovers(rule, g.ip, IntOrNone(g.port)) <==> RuleReaches(rule, g) {
        CustomReaches(rule, g);
      }
      var x, y := Lookup(plan.externalEgress, id), Lookup(plan.workloadEgress, (id, w.name));
      assert forall e :: e in x + y <==> e in x || e in y;
    }
  }

  // ---------------------------------------------------------------------------
  // Gates on addresses
  // ---------------------------------------------------------------------------

  lemma CustomRuleAdmits(rule: Rule, dst: Endpoint, gatePort: Option<int>, port: int)
    requires CustomRuleCovers(rule, Some(dst.ip), gatePort) && (gatePort.Some? ==> gatePort.value == port)
    ensures RuleAdmits(rule, dst, "TCP", port)
  {
    var peer :| peer in rule.peers && peer.Block? && In(dst.ip, peer.cidr) &&
                forall x :: x in peer.except ==> !In(dst.ip, x);
    assert PeerMatches(peer, dst);
  }

  /** A gate on an IP that is not flagged can connect: some policy of its pod admits it. */
  lemma PassingGateConnects(
    plan: Plan, policies: seq<Policy>, keys: seq<(string, string)>, i: nat, allowed: set<string>,
    workload: string, g: Gate, src: Endpoint, dst: Endpoint, port: int)
    requires IsPolicySet(plan, policies, keys) && EntriesSound(plan) && i < |plan.modules|
    requires IsWorkloadPod(plan.modules[i].id, ServiceName(plan.modules[i].id, workload), src)
    requires g.Gate? && g.ip == Some(dst.ip) && g.host !in allowed
    requires GatePasses(plan, allowed, plan.modules[i].id, workload, g)
    requires IntOrNone(g.port).Some? ==> IntOrNone(g.port).value == port
    ensures EgressAllowed(policies, src, dst, "TCP", port)
  {
    var id := plan.modules[i].id;
    var name := ServiceName(id, workload);
    if rule :| rule in Lookup(plan.customEgress, id) && CustomRuleCovers(rule, g.ip, IntOrNone(g.port)) {
      CustomRuleAdmits(rule, dst, IntOrNone(g.port), port);
      SelectorPicksWorkload(("", ""), id, name, src);
      SelectorPicksModule(id, id, src);
      assert IsModulePolicy(plan, id, policies[i]) && policies[i] in policies;
      assert IsEgressRule(plan, id, rule);
      assert rule in policies[i].egress.value;
    } else {
      var entries := Lookup(plan.externalEgress, id) + Lookup(plan.workloadEgress, (id, workload));
      var entry :| entry in entries && EntryCovers(entry, g.ip, IntOrNone(g.port));
      assert DeclaredFor(plan, id, name, entry) by {
        if entry !in Lookup(plan.externalEgress, id) {
          assert entry in Lookup(plan.workloadEgress, (id, workload));
        }
      }
      DeclaredEgressAdmits(plan, policies, keys, i, name, src, dst, port, entry);
    }
  }

  /** Another workload of the module, rendered under the same Service name, declares what the gate needs. */
  ghost predicate NamesakeCovers(plan: Plan, id: string, workload: string, ip: Address, port: int) {
    exists other, entry ::
      && other != workload && ServiceName(id, other) == ServiceName(id, workload)
      && entry in Lookup(plan.workloadEgress, (id, other)) && EntryCovers(entry, Some(ip), Some(port))
  }

  /**
   Without custom rules, a flagged gate on an outside IP could only hang, unless another
   workload of the module goes by the same Service name and declares that address.
   */
  lemma FlaggedGateHangsIff(
    plan: Plan, policies: seq<Policy>, keys: seq<(string, string)>, i: nat, allowed: set<string>,
    workload: string, g: Gate, src: Endpoint, dst: Endpoint, port: int)
    requires IsPolicySet(plan, policies, keys) && NoCustomRules(plan) && EntriesSound(plan) && i < |plan.modules|
    requires IsWorkloadPod(plan.modules[i].id, ServiceName(plan.modules[i].id, workload), src) && dst.pod.None?
    requires g.Gate? && g.ip == Some(dst.ip) && IntOrNone(g.port) == Some(port)
    requires !GatePasses(plan, allowed, plan.modules[i].id, workload, g)
    ensures !EgressAllowed(policies, src, dst, "TCP", port) <==>
            !NamesakeCovers(plan, plan.modules[i].id, workload, dst.ip, port)
  {
    var id := plan.modules[i].id;
    ExternalReachIffDeclared(plan, policies, keys, i, ServiceName(id, workload), src, dst, port);
    forall entry | EntryCovers(entry, Some(dst.ip), Some(port))
      ensures entry !in Lookup(plan.externalEgress, id) && entry !in Lookup(plan.workloadEgress, (id, workload))
    {
      var entries := Lookup(plan.externalEgress, id) + Lookup(plan.workloadEgress, (id, workload));
      assert entry !in entries;
    }
    if other, entry :| other != workload && ServiceName(id, other) == ServiceName(id, workload) &&
                       entry in Lookup(plan.workloadEgress, (id, other)) &&
                         EntryCovers(entry, Some(dst.ip), Some(port)) {
      assert DeclaredFor(plan, id, ServiceName(id, workload), entry);
    }
  }

  /** Workloads `w` and `id-w` of module `id` share a Service name, and so what either declares. */
  lemma NamesakeSharesEgress(
    plan: Plan, policies: seq<Policy>, keys: seq<(string, string)>, i: nat, allowed: set<string>,
    w: string, entry: Entry, g: Gate, src: Endpoint, dst: Endpoint, port: int)
    requires IsPolicySet(plan, policies, keys) && NoCustomRules(plan) && EntriesSound(plan) && i < |plan.modules|
    requires var id := plan.modules[i].id;
             && w != id && !(id + "-" <= w)
             && IsWorkloadPod(id, ServiceName(id, w), src) && dst.pod.None?
             && Lookup(plan.externalEgress, id) == [] && Lookup(plan.workloadEgress, (id, w)) == []
             && entry in Lookup(plan.workloadEgress, (id, id + "-" + w))
    requires EntryCovers(entry, Some(dst.ip), Some(port))
    requires g.Gate? && g.ip == Some(dst.ip) && IntOrNone(g.port) == Some(port) && g.host !in allowed
    ensures !GatePasses(plan, allowed, plan.modules[i].id, w, g)
    ensures NamesakeCovers(plan, plan.modules[i].id, w, dst.ip, port)
    ensures EgressAllowed(policies, src, dst, "TCP", port)
  {
    var id := plan.modules[i].id;
    var other := id + "-" + w;
    assert other[..|id + "-"|] == id + "-" && |other| > |w|;
    assert ServiceName(id, other) == ServiceName(id, w);
    FlaggedGateHangsIff(plan, policies, keys, i, allowed, w, g, src, dst, port);
  }

  // ---------------------------------------------------------------------------
  // Gates on hosts allowed by name
  // ---------------------------------------------------------------------------

  lemma {:induction false} InOwnHosts(names: ServiceNames, id: string, workloads: seq<Gated>, host: string)
    ensures host in OwnHosts(names, id, workloads) <==>
            exists w :: w in workloads && ScopedName(names, ServiceName(id, w.name)) == Some(host)
  {
    if workloads == [] {
    } else {
      var init, last := workloads[..|workloads| - 1], workloads[|workloads| - 1];
      InOwnHosts(names, id, init, host);
      assert forall w :: w in workloads <==> w in init || w == last;
    }
  }

  lemma {:induction false} InBoundHosts(plan: Plan, m: Module, consumes: seq<Consume>, host: string)
    ensures host in BoundHosts(plan, m, consumes) <==> exists c :: c in consumes && BoundHost(plan, m, c) == Some(host)
  {
    if consumes == [] {
    } else {
      var init, last := consumes[..|consumes| - 1], consumes[|consumes| - 1];
      InBoundHosts(plan, m, init, host);
      assert forall c :: c in consumes <==> c in init || c == last;
    }
  }

  lemma {:induction false} InRouteHosts(plan: Plan, names: ServiceNames, m: Module, routes: seq<Route>, host: string)
    ensures host in RouteHosts(plan, names, m, routes) <==>
            exists r :: r in routes && RouteTarget(plan, names, m, r).Some? &&
              RouteTarget(plan, names, m, r).value.1 == host
  {
    if routes == [] {
    } else {
      var init, last := routes[..|routes| - 1], routes[|routes| - 1];
      InRouteHosts(plan, names, m, init, host);
      assert forall r :: r in routes <==> r in init || r == last;
    }
  }

  /** The module's own wiring gives the host as an endpoint of module `target`. */
  ghost predicate NamesEndpoint(plan: Plan, names: ServiceNames, m: Module, host: string, target: string) {
    || (exists c :: c in m.consumes && BoundHost(plan, m, c) == Some(host) && ProviderOf(c.contractRef) == target)
    || (exists r :: r in RoutesOf(m) && RouteTarget(plan, names, m, r) == Some((target, host)))
  }

  /** A host is allowed by name exactly as a Service of the module or an endpoint it is wired to. */
  lemma AllowedByNameIff(plan: Plan, names: ServiceNames, m: Module, workloads: seq<Gated>, host: string)
    ensures host in AllowedHosts(plan, names, m, workloads) <==>
            || (exists w :: w in workloads && ScopedName(names, ServiceName(m.id, w.name)) == Some(host))
            || (exists target :: NamesEndpoint(plan, names, m, host, target))
  {
    InOwnHosts(names, m.id, workloads, host);
    InBoundHosts(plan, m, m.consumes, host);
    InRouteHosts(plan, names, m, RoutesOf(m), host);
    forall c | c in m.consumes && BoundHost(plan, m, c) == Some(host)
      ensures NamesEndpoint(plan, names, m, host, ProviderOf(c.contractRef))
    {
    }
    forall r | r in RoutesOf(m) && RouteTarget(plan, names, m, r).Some? &&
      RouteTarget(plan, names, m, r).value.1 == host
      ensures NamesEndpoint(plan, names, m, host, RouteTarget(plan, names, m, r).value.0)
    {
      assert RouteTarget(plan, names, m, r) == Some((RouteTarget(plan, names, m, r).value.0, host));
    }
  }

  /** The chart's name of a rendered Service. */
  ghost predicate IsChartName(names: ServiceNames, full: string, host: string) {
    full in names && host == "{{ .Release.Name }}-" + names[full]
  }

  lemma ChartName(names: ServiceNames, full: string, host: string)
    ensures ScopedName(names, full) == Some(host) <==> IsChartName(names, full, host)
  {
    assert RELEASE + "-" == "{{ .Release.Name }}-";
  }

  /** A binding to another module of the plan gives its host, unless that is empty. */
  lemma BoundHostIff(plan: Plan, m: Module, c: Consume, host: string)
    ensures BoundHost(plan, m, c) == Some(host) <==>
            && c.Binding? && host != "" && c.host == host
            && ProviderOf(c.contractRef) != m.id && IsPlanModule(plan, ProviderOf(c.contractRef))
  {
  }

  /** A module of the plan under this id, the last one if there are several. */
  lemma {:induction false} ByIdIs(modules: seq<Module>, id: string)
    ensures id in ById(modules) <==> exists m :: m in modules && m.id == id
    ensures id in ById(modules) ==> ById(modules)[id] in modules && ById(modules)[id].id == id
  {
    if modules == [] {
    } else {
      ByIdIs(modules[..|modules| - 1], id);
      assert modules == modules[..|modules| - 1] + [modules[|modules| - 1]];
    }
  }

  /** The http-service `name` of the module of the plan with this id. */
  ghost predicate OffersHttp(plan: Plan, target: string, name: string, entry: Provide) {
    exists p :: p in plan.modules && p.id == target && name in p.provided && p.provided[name] == entry &&
                entry.kind == "http-service"
  }

  lemma HttpEntryIff(plan: Plan, target: string, name: string, entry: Provide)
    requires DistinctIds(plan)
    ensures HttpEntry(ById(plan.modules), target, name) == Some(entry) <==> OffersHttp(plan, target, name, entry)
  {
    ByIdIs(plan.modules, target);
    forall p, q | p in plan.modules && q in plan.modules && p.id == q.id ensures p == q {
      SameIdSameModule(plan, p, q);
    }
  }

  /** The chart's name of the Service an http-service advertises, or else of the host given for it. */
  ghost predicate IsHostOf(names: ServiceNames, target: string, entry: Provide, host: string) {
    if entry.service != "" then IsChartName(names, ServiceName(target, entry.service), host)
    else entry.host.Some? && IsChartName(names, entry.host.value, host)
  }

  /** The route names this http-service of another module, whose host is this one. */
  ghost predicate RouteNames(
    plan: Plan, names: ServiceNames, m: Module, r: Route, target: string, host: string, name: string, entry: Provide)
  {
    && r == Route(Some(target + "." + name)) && target != "" && '.' !in target && name != ""
    && target != m.id && OffersHttp(plan, target, name, entry) && IsHostOf(names, target, entry, host)
  }

  lemma RouteNamesTarget(
    plan: Plan, names: ServiceNames, m: Module, r: Route, target: string, host: string, name: string, entry: Provide)
    requires DistinctIds(plan) && RouteNames(plan, names, m, r, target, host, name, entry)
    ensures RouteTarget(plan, names, m, r) == Some((target, host))
  {
    ParsedIff(r.contractRef.value, target, name);
    HttpEntryIff(plan, target, name, entry);
    var full := if entry.service != "" then Some(ServiceName(target, entry.service)) else entry.host;
    ChartName(names, full.value, host);
  }

  /** A route leads to the host of the http-service of another module that it names. */
  lemma RouteTargetIff(plan: Plan, names: ServiceNames, m: Module, r: Route, target: string, host: string)
    requires DistinctIds(plan)
    ensures RouteTarget(plan, names, m, r) == Some((target, host)) <==>
            exists name, entry :: RouteNames(plan, names, m, r, target, host, name, entry)
  {
    if RouteTarget(plan, names, m, r) == Some((target, host)) {
      var (id, name) := ParseContractRef(r.contractRef.value).value;
      var entry := HttpEntry(ById(plan.modules), id, name).value;
      ParsedIff(r.contractRef.value, id, name);
      HttpEntryIff(plan, id, name, entry);
      assert RouteNames(plan, names, m, r, target, host, name, entry);
    }
    if name, entry :| RouteNames(plan, names, m, r, target, host, name, entry) {
      RouteNamesTarget(plan, names, m, r, target, host, name, entry);
    }
  }

  /** A gate on an endpoint of another module is never flagged, whatever its port. */
  lemma NamedGatePasses(
    plan: Plan, names: ServiceNames, workloads: seq<Gated>, m: Module, target: string, workload: string, g: Gate)
    requires g.Gate? && NamesEndpoint(plan, names, m, g.host, target)
    ensures GatePasses(plan, AllowedHosts(plan, names, m, workloads), m.id, workload, g)
  {
    AllowedByNameIff(plan, names, m, workloads, g.host);
  }

  /**
   The gate waits for a connection to the pod port behind its own port. That is let through
   exactly when a contract between the two modules opens this pod port, as one without a
   port or with the gate's does.
   */
  lemma NamedGateConnectsIff(
    plan: Plan, names: ServiceNames, gated: seq<Gated>, policies: seq<Policy>, keys: seq<(string, string)>,
    i: nat, j: nat, workloads: seq<Workload>, workload: string, g: Gate, facing: int, n: int,
    src: Endpoint, dst: Endpoint)
    requires ReachPremises(plan, policies, keys) && i < |plan.modules| && j < |plan.modules| && i != j
    requires IsModulePod(plan.modules[i].id, src) && IsModulePod(plan.modules[j].id, dst)
    requires g.Gate? && NamesEndpoint(plan, names, plan.modules[i], g.host, plan.modules[j].id)
    requires AllSummarized(SurfacesOf(plan, plan.modules[j].id), workloads)
    requires IntOrNone(g.port) == Some(facing) && LeadsTo(workloads, facing, n)
    ensures GatePasses(plan, AllowedHosts(plan, names, plan.modules[i], gated), plan.modules[i].id, workload, g)
    ensures Allowed(policies, src, dst, "TCP", n) <==>
            exists port :: WiredTo(plan, plan.modules[i], plan.modules[j].id, port) && PortReaches(port, workloads, n)
    ensures (exists port :: WiredTo(plan, plan.modules[i], plan.modules[j].id, port) &&
                            IntOrNone(port) in {None, IntOrNone(g.port)})
            ==> Allowed(policies, src, dst, "TCP", n)
  {
    NamedGatePasses(plan, names, gated, plan.modules[i], plan.modules[j].id, workload, g);
    var w, p :| w in workloads && p in w.ports && Maps(p, facing, n);
    assert Exposes(p, n);
    ReachIffWired(plan, policies, keys, i, j, workloads, src, dst, n);
  }

  /** A workload with two Service ports, each the pod port as well. */
  function TwoPorts(f: int, q: int): Workload {
    Workload(true, "", [ServicePort(Number(f), None), ServicePort(Number(q), None)])
  }

  /** Module `a` is bound to a contract of module `b` with port `f` and host `host`. */
  function TwoPortPlan(a: string, b: string, f: int, q: int, host: string): Plan {
    Plan([Module(a, [Binding(b + ".x", Number(f), host)], map[], []), Module(b, [], map[], [])],
         map[], map[b := [Surface("ClusterIP", {f, q}, map[f := {f}, q := {q}])]],
         map[], map[], map[], map[])
  }

  lemma TwoPortsLead(f: int, q: int, facing: int, n: int)
    ensures LeadsTo([TwoPorts(f, q)], facing, n) <==> facing == n && (n == f || n == q)
    ensures f != q ==> Summarizes(Surface("ClusterIP", {f, q}, map[f := {f}, q := {q}]), TwoPorts(f, q))
  {
    var w := TwoPorts(f, q);
    assert w.ports[0] in w.ports && w.ports[1] in w.ports && w in [w];
    assert n == f == facing ==> Maps(w.ports[0], facing, n);
    assert n == q == facing ==> Maps(w.ports[1], facing, n);
  }

  lemma TwoPortWiring(a: string, b: string, f: int, q: int, host: string, names: ServiceNames)
    requires a != b && '.' !in b && host != ""
    ensures var plan := TwoPortPlan(a, b, f, q, host);
            && NamesEndpoint(plan, names, plan.modules[0], host, b)
            && forall port :: WiredTo(plan, plan.modules[0], b, port) ==> port == Number(f)
  {
    var plan := TwoPortPlan(a, b, f, q, host);
    var c := plan.modules[0].consumes[0];
    ProviderIff(b, "x");
    assert c.contractRef == b + "." + "x";
    assert plan.modules[1].id in Ids(plan);
    assert c in plan.modules[0].consumes && BoundHost(plan, plan.modules[0], c) == Some(host);
  }

  /** A gate on the host of the contract but on the other port passes the check, and can only hang. */
  lemma WrongPortGate(
    a: string, b: string, f: int, q: int, host: string, names: ServiceNames, gated: seq<Gated>, workload: string,
    policies: seq<Policy>, keys: seq<(string, string)>, src: Endpoint, dst: Endpoint)
    requires a != b && '.' !in b && f != q && host != ""
    requires IsPolicySet(TwoPortPlan(a, b, f, q, host), policies, keys)
    requires IsModulePod(a, src) && IsModulePod(b, dst)
    ensures var plan, g := TwoPortPlan(a, b, f, q, host), Gate(host, None, Number(q));
            && GatePasses(plan, AllowedHosts(plan, names, plan.modules[0], gated), a, workload, g)
            && LeadsTo([TwoPorts(f, q)], q, q) && !Allowed(policies, src, dst, "TCP", q)
  {
    var plan, g := TwoPortPlan(a, b, f, q, host), Gate(host, None, Number(q));
    TwoPortWiring(a, b, f, q, host, names);
    TwoPortsLead(f, q, q, q);
    TwoPortsLead(f, q, f, f);
    TwoPortsLead(f, q, f, q);
    NamedGateConnectsIff(plan, names, gated, policies, keys, 0, 1, [TwoPorts(f, q)], workload, g, q, q, src, dst);
  }
}
