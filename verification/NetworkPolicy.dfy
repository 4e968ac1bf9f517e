// NetworkPolicy generation (cli/k8s_renderer.py): contract bindings and proxy routes
// become one default-deny policy per module, and declared egress opens IP blocks.
module NetworkPolicy {
  import opened Document
  import opened Cidr
  import opened Cluster
  import opened Egress
  import opened Naming
  import opened Resolver

  // ---------------------------------------------------------------------------
  // What a workload exposes
  // ---------------------------------------------------------------------------

  datatype ServicePort = NotAPort | ServicePort(port: PortField, target: Option<PortField>)

  datatype Workload = Workload(enabled: bool, kind: string, ports: seq<ServicePort>)

  /** The Service type, the pod ports behind it, and the Service port to pod port map. */
  datatype Surface = Surface(kind: string, ports: set<int>, portMap: map<int, set<int>>)

  function PodPort(p: ServicePort): Option<int> {
    match p
    case NotAPort => None
    case ServicePort(port, target) => IntOrNone(if target.Some? then target.value else port)
  }

  function FacingPort(p: ServicePort): Option<int> {
    if p.ServicePort? then IntOrNone(p.port) else None
  }

  predicate Exposes(p: ServicePort, n: int) {
    PodPort(p) == Some(n)
  }

  predicate Maps(p: ServicePort, facing: int, n: int) {
    FacingPort(p) == Some(facing) && PodPort(p) == Some(n)
  }

  predicate InPortMap(portMap: map<int, set<int>>, facing: int, n: int) {
    facing in portMap && n in portMap[facing]
  }

  /** The surface of one workload says exactly which ports it maps where. */
  ghost predicate Summarizes(surface: Surface, w: Workload) {
    surface.kind == (if w.kind == "" then "ClusterIP" else w.kind) &&
      PortsSummarized(surface.ports, surface.portMap, w.ports)
  }

  ghost predicate PortsSummarized(ports: set<int>, portMap: map<int, set<int>>, declared: seq<ServicePort>) {
    && (forall n :: n in ports <==> exists p :: p in declared && Exposes(p, n))
    && (forall facing, n :: InPortMap(portMap, facing, n) <==> exists p :: p in declared && Maps(p, facing, n))
  }

  method SummarizeWorkload(w: Workload) returns (surface: Surface)
    ensures Summarizes(surface, w)
  {
    var ports: set<int> := {};
    var portMap: map<int, set<int>> := map[];
    for i := 0 to |w.ports|
      invariant PortsSummarized(ports, portMap, w.ports[..i])
    {
      assert w.ports[..i + 1] == w.ports[..i] + [w.ports[i]];
      ghost var ports', portMap' := ports, portMap;
      var target, facing := PodPort(w.ports[i]), FacingPort(w.ports[i]);
      if target.Some? {
        ports := ports + {target.value};
      }
      if facing.Some? && target.Some? {
        var known := if facing.value in portMap then portMap[facing.value] else {};
        portMap := portMap[facing.value := known + {target.value}];
      }
      assert forall n :: n in ports <==> n in ports' || Exposes(w.ports[i], n);
      assert forall f, n :: InPortMap(portMap, f, n) <==> InPortMap(portMap', f, n) || Maps(w.ports[i], f, n);
    }
    assert w.ports[..|w.ports|] == w.ports;
    surface := Surface(if w.kind == "" then "ClusterIP" else w.kind, ports, portMap);
  }

  /** A declared port leads to the pod port `n`: by its target if it has one, else by its own number. */
  predicate LandsOn(p: ServicePort, n: int) {
    p.ServicePort? && match p.target case Some(t) => Denotes(t, n) case None => Denotes(p.port, n)
  }

  /** The surface in terms of the fields a workload declares. */
  lemma SurfaceIff(surface: Surface, w: Workload, facing: int, n: int)
    requires Summarizes(surface, w)
    ensures n in surface.ports <==> exists p :: p in w.ports && LandsOn(p, n)
    ensures facing in surface.portMap && n in surface.portMap[facing] <==>
            exists p :: p in w.ports && LandsOn(p, n) && Denotes(p.port, facing)
    ensures surface.kind == if w.kind == "" then "ClusterIP" else w.kind
  {
    forall p: ServicePort ensures Exposes(p, n) <==> LandsOn(p, n)
                          ensures Maps(p, facing, n) <==> LandsOn(p, n) && Denotes(p.port, facing)
    {
      PortsRead(p, facing, n);
    }
    assert InPortMap(surface.portMap, facing, n) <==> exists p :: p in w.ports && Maps(p, facing, n);
  }

  lemma PortsRead(p: ServicePort, facing: int, n: int)
    ensures Exposes(p, n) <==> LandsOn(p, n)
    ensures Maps(p, facing, n) <==> LandsOn(p, n) && Denotes(p.port, facing)
  {
    if p.ServicePort? {
      DenotesIff(p.port, facing);
      DenotesIff(if p.target.Some? then p.target.value else p.port, n);
    }
  }

  function EnabledOf(workloads: seq<Workload>): seq<Workload> {
    if workloads == [] then []
    else EnabledOf(workloads[..|workloads| - 1]) +
         if workloads[|workloads| - 1].enabled then [workloads[|workloads| - 1]] else []
  }

  /** The enabled workloads, all of them and in order. */
  lemma {:induction false} EnabledIff(workloads: seq<Workload>, more: seq<Workload>, w: Workload)
    ensures w in EnabledOf(workloads) <==> w in workloads && w.enabled
    ensures EnabledOf(workloads + more) == EnabledOf(workloads) + EnabledOf(more)
    decreases |workloads| + |more|, |workloads|
  {
    if more == [] {
      assert workloads + more == workloads;
      if workloads != [] {
        EnabledIff(workloads[..|workloads| - 1], [], w);
        assert workloads == workloads[..|workloads| - 1] + [workloads[|workloads| - 1]];
      }
    } else {
      EnabledIff(workloads, more[..|more| - 1], w);
      assert (workloads + more)[..|workloads + more| - 1] == workloads + more[..|more| - 1];
    }
  }

  ghost predicate AllSummarized(surfaces: seq<Surface>, workloads: seq<Workload>) {
    && |surfaces| == |workloads|
    && forall i :: 0 <= i < |surfaces| ==> Summarizes(surfaces[i], workloads[i])
  }

  method WorkloadSurfaces(workloads: seq<Workload>) returns (surfaces: seq<Surface>)
    ensures AllSummarized(surfaces, EnabledOf(workloads))
  {
    surfaces := [];
    for i := 0 to |workloads|
      invariant AllSummarized(surfaces, EnabledOf(workloads[..i]))
    {
      assert workloads[..i + 1][..i] == workloads[..i];
      if workloads[i].enabled {
        var surface := SummarizeWorkload(workloads[i]);
        surfaces := surfaces + [surface];
      }
    }
    assert workloads[..|workloads|] == workloads;
  }

  // ---------------------------------------------------------------------------
  // Ports a contract justifies
  // ---------------------------------------------------------------------------

  predicate NonEmpty(ports: set<int>) {
    exists p :: p in ports
  }

  /** A port limit, where there is one, names at least one port. */
  predicate SomePort(ports: Option<set<int>>) {
    ports.Some? ==> NonEmpty(ports.value)
  }

  function MappedPorts(port: int, surfaces: seq<Surface>): set<int> {
    if surfaces == [] then {}
    else (if port in surfaces[0].portMap then surfaces[0].portMap[port] else {}) + MappedPorts(port, surfaces[1..])
  }

  function AdvertisedPorts(surfaces: seq<Surface>): set<int> {
    if surfaces == [] then {} else surfaces[0].ports + AdvertisedPorts(surfaces[1..])
  }

  lemma {:induction false} MappedBySome(facing: int, n: int, surfaces: seq<Surface>)
    ensures n in MappedPorts(facing, surfaces) <==> exists s :: s in surfaces && InPortMap(s.portMap, facing, n)
  {
    if surfaces == [] {
    } else {
      MappedBySome(facing, n, surfaces[1..]);
    }
  }

  /** `None` when nothing limits the ports. */
  function PortScope(port: PortField, surfaces: seq<Surface>): Option<set<int>> {
    match IntOrNone(port)
    case Some(p) => Some(if NonEmpty(MappedPorts(p, surfaces)) then MappedPorts(p, surfaces) else {p})
    case None => if NonEmpty(AdvertisedPorts(surfaces)) then Some(AdvertisedPorts(surfaces)) else None
  }

  lemma PortScopeNeverEmpty(port: PortField, surfaces: seq<Surface>)
    ensures SomePort(PortScope(port, surfaces))
  {
    if IntOrNone(port).Some? { assert IntOrNone(port).value in {IntOrNone(port).value}; }
  }

  /** Every pod port a provider maps the contract's Service port to is in scope. */
  lemma RemappedPortsInScope(
    port: PortField, facing: int, n: int, surfaces: seq<Surface>, workloads: seq<Workload>, w: Workload, p: ServicePort)
    requires AllSummarized(surfaces, workloads) && w in workloads && p in w.ports
    requires IntOrNone(port) == Some(facing) && Maps(p, facing, n)
    ensures PortScope(port, surfaces).Some? && n in PortScope(port, surfaces).value
  {
    var i :| 0 <= i < |workloads| && workloads[i] == w;
    SummaryMaps(surfaces[i], w, p, facing, n);
    MappedInScope(port, facing, n, surfaces, surfaces[i]);
  }

  /** Some workload maps the Service port `facing` to the pod port `n`. */
  ghost predicate LeadsTo(workloads: seq<Workload>, facing: int, n: int) {
    exists w, p :: w in workloads && p in w.ports && Maps(p, facing, n)
  }

  ghost predicate ExposedBy(workloads: seq<Workload>, n: int) {
    exists w, p :: w in workloads && p in w.ports && Exposes(p, n)
  }

  /**
   What a contract's port opens, told from the provider's workloads: the pod ports behind
   that Service port, or the number itself when no workload maps it; and without a port all
   that is exposed, or everything when nothing is.
   */
  ghost predicate PortReaches(port: PortField, workloads: seq<Workload>, n: int) {
    match IntOrNone(port)
    case Some(facing) => LeadsTo(workloads, facing, n) || (n == facing && forall k :: !LeadsTo(workloads, facing, k))
    case None => ExposedBy(workloads, n) || forall k :: !ExposedBy(workloads, k)
  }

  lemma {:induction false} MappedIffLed(facing: int, n: int, surfaces: seq<Surface>, workloads: seq<Workload>)
    requires AllSummarized(surfaces, workloads)
    ensures n in MappedPorts(facing, surfaces) <==> LeadsTo(workloads, facing, n)
  {
    MappedBySome(facing, n, surfaces);
    if s :| s in surfaces && InPortMap(s.portMap, facing, n) {
      var i :| 0 <= i < |surfaces| && surfaces[i] == s;
      var p :| p in workloads[i].ports && Maps(p, facing, n);
      assert workloads[i] in workloads;
    }
    if w, p :| w in workloads && p in w.ports && Maps(p, facing, n) {
      var i :| 0 <= i < |workloads| && workloads[i] == w;
      SummaryMaps(surfaces[i], w, p, facing, n);
    }
  }

  lemma {:induction false} AdvertisedIffExposed(n: int, surfaces: seq<Surface>, workloads: seq<Workload>)
    requires AllSummarized(surfaces, workloads)
    ensures n in AdvertisedPorts(surfaces) <==> ExposedBy(workloads, n)
  {
    if surfaces == [] {
    } else {
      AdvertisedIffExposed(n, surfaces[1..], workloads[1..]);
      assert Summarizes(surfaces[0], workloads[0]);
      assert forall w :: w in workloads <==> w == workloads[0] || w in workloads[1..];
    }
  }

  /** The ports in scope are those the contract's port opens. */
  lemma PortScopeIff(port: PortField, n: int, surfaces: seq<Surface>, workloads: seq<Workload>)
    requires AllSummarized(surfaces, workloads)
    ensures PortScope(port, surfaces).None? || n in PortScope(port, surfaces).value <==> PortReaches(port, workloads, n)
    ensures ExposedBy(workloads, n) ==> PortScope(port, surfaces).Some?
  {
    match IntOrNone(port)
    case Some(facing) =>
      forall k ensures k in MappedPorts(facing, surfaces) <==> LeadsTo(workloads, facing, k) {
        MappedIffLed(facing, k, surfaces, workloads);
      }
    case None =>
      forall k ensures k in AdvertisedPorts(surfaces) <==> ExposedBy(workloads, k) {
        AdvertisedIffExposed(k, surfaces, workloads);
      }
  }

  lemma SummaryMaps(s: Surface, w: Workload, p: ServicePort, facing: int, n: int)
    requires Summarizes(s, w) && p in w.ports && Maps(p, facing, n)
    ensures InPortMap(s.portMap, facing, n)
  {
  }

  lemma MappedInScope(port: PortField, facing: int, n: int, surfaces: seq<Surface>, s: Surface)
    requires s in surfaces && InPortMap(s.portMap, facing, n) && IntOrNone(port) == Some(facing)
    ensures PortScope(port, surfaces).Some? && n in PortScope(port, surfaces).value
  {
    MappedBySome(facing, n, surfaces);
  }

  // ---------------------------------------------------------------------------
  // Modules, bindings and routes
  // ---------------------------------------------------------------------------

  /** One consumed contract: its reference text, and the port and the resolved host its spec carries. */
  datatype Consume = NotABinding | Binding(contractRef: string, port: PortField, host: string)

  /** One provided contract; the service it advertises is empty where there is none. */
  datatype Provide = Provide(kind: string, port: PortField, service: string, host: Option<string>)

  datatype Route = NotARoute | Route(contractRef: Option<string>)

  datatype Module = Module(id: string, consumes: seq<Consume>, provided: map<string, Provide>, routes: seq<Route>)

  predicate IsReverseProxy(m: Module) {
    exists name :: name in m.provided && m.provided[name].kind == "reverse-proxy"
  }

  /** A route port outside 1-65535, or not written as digits, counts as no port. */
  function BackendPort(port: PortField): PortField {
    if IsBackendPort(port) then port else Absent
  }

  predicate IsBackendPort(port: PortField) {
    match port
    case Absent => false
    case Flag(_) => false
    case Number(n) => 1 <= n <= 65535
    case Text(value, digitsOnly) => digitsOnly && value.Some? && 1 <= value.value <= 65535
  }

  datatype Edge = Edge(src: string, dst: string, ports: Option<set<int>>)

  datatype Diagnostic = UnscopedBinding(consumer: string, index: nat) | UnderivedRoute(proxy: string, index: nat)

  /** Everything policy generation reads. */
  datatype Plan = Plan(
    modules: seq<Module>,
    planModules: map<string, Module>,
    surfaces: map<string, seq<Surface>>,
    customIngress: map<string, seq<Rule>>,
    customEgress: map<string, seq<Rule>>,
    externalEgress: map<string, seq<Entry>>,
    workloadEgress: map<(string, string), seq<Entry>>)

  function Ids(plan: Plan): set<string> {
    set m | m in plan.modules :: m.id
  }

  function SurfacesOf(plan: Plan, id: string): seq<Surface> {
    if id in plan.surfaces then plan.surfaces[id] else []
  }

  /** The edge one consumed contract justifies. */
  function BindingEdge(plan: Plan, m: Module, c: Consume): Option<Edge> {
    if c.NotABinding? then None
    else
      var provider := ProviderOf(c.contractRef);
      if provider !in Ids(plan) || provider == m.id then None
      else Some(Edge(m.id, provider, PortScope(c.port, SurfacesOf(plan, provider))))
  }

  datatype RouteOutcome = Skipped | Unresolved | Derived(edge: Edge)

  /** The http-service contract a route names. */
  function HttpEntry(byId: map<string, Module>, target: string, name: string): Option<Provide> {
    if target in byId && name in byId[target].provided && byId[target].provided[name].kind == "http-service"
    then Some(byId[target].provided[name])
    else None
  }

  /** What one route of a proxy becomes: an edge, a W129 warning, or nothing. */
  function RouteEdge(plan: Plan, m: Module, r: Route): RouteOutcome {
    if r.NotARoute? then Skipped
    else
      var parsed := if r.contractRef.Some? then ParseContractRef(r.contractRef.value) else None;
      if parsed.None? then (if m.id == "" then Skipped else Unresolved)
      else
        var (target, name) := parsed.value;
        if target == m.id then Skipped
        else
          var entry := HttpEntry(plan.planModules, target, name);
          if entry.None? then Unresolved
          else if target !in Ids(plan) then Skipped
          else
            var ports := PortScope(BackendPort(entry.value.port), SurfacesOf(plan, target));
            if ports.None? then Unresolved else Derived(Edge(m.id, target, ports))
  }

  // ---------------------------------------------------------------------------
  // Derived edges
  // ---------------------------------------------------------------------------

  function BindingEdges(plan: Plan, m: Module, consumes: seq<Consume>): set<Edge> {
    if consumes == [] then {}
    else
      var edge := BindingEdge(plan, m, consumes[|consumes| - 1]);
      BindingEdges(plan, m, consumes[..|consumes| - 1]) + if edge.Some? then {edge.value} else {}
  }

  function RouteEdges(plan: Plan, m: Module, routes: seq<Route>): set<Edge> {
    if routes == [] then {}
    else
      var outcome := RouteEdge(plan, m, routes[|routes| - 1]);
      RouteEdges(plan, m, routes[..|routes| - 1]) + if outcome.Derived? then {outcome.edge} else {}
  }

  /** Only a module that provides a reverse-proxy contract has routes. */
  function RoutesOf(m: Module): seq<Route> {
    if IsReverseProxy(m) then m.routes else []
  }

  function AllBindingEdges(plan: Plan, modules: seq<Module>): set<Edge> {
    if modules == [] then {}
    else
      var last := modules[|modules| - 1];
      AllBindingEdges(plan, modules[..|modules| - 1]) + BindingEdges(plan, last, last.consumes)
  }

  function AllRouteEdges(plan: Plan, modules: seq<Module>): set<Edge> {
    if modules == [] then {}
    else
      var last := modules[|modules| - 1];
      AllRouteEdges(plan, modules[..|modules| - 1]) + RouteEdges(plan, last, RoutesOf(last))
  }

  function DerivedEdges(plan: Plan): set<Edge> {
    AllBindingEdges(plan, plan.modules) + AllRouteEdges(plan, plan.modules)
  }

  /** A binding or a proxy route of a module of the plan yields this edge. */
  ghost predicate Justified(plan: Plan, e: Edge) {
    || (exists m, c :: m in plan.modules && c in m.consumes && BindingEdge(plan, m, c) == Some(e))
    || (exists m, r :: m in plan.modules && r in RoutesOf(m) && RouteEdge(plan, m, r) == Derived(e))
  }

  lemma {:induction false} InBindingEdges(plan: Plan, m: Module, consumes: seq<Consume>, e: Edge)
    ensures e in BindingEdges(plan, m, consumes) <==> exists c :: c in consumes && BindingEdge(plan, m, c) == Some(e)
  {
    if consumes == [] {
    } else {
      InBindingEdges(plan, m, consumes[..|consumes| - 1], e);
    }
  }

  lemma {:induction false} InRouteEdges(plan: Plan, m: Module, routes: seq<Route>, e: Edge)
    ensures e in RouteEdges(plan, m, routes) <==> exists r :: r in routes && RouteEdge(plan, m, r) == Derived(e)
  {
    if routes == [] {
    } else {
      InRouteEdges(plan, m, routes[..|routes| - 1], e);
    }
  }

  lemma {:induction false} InAllBindingEdges(plan: Plan, modules: seq<Module>, e: Edge)
    ensures e in AllBindingEdges(plan, modules) <==>
            exists m, c :: m in modules && c in m.consumes && BindingEdge(plan, m, c) == Some(e)
  {
    if modules == [] {
    } else {
      var last := modules[|modules| - 1];
      InAllBindingEdges(plan, modules[..|modules| - 1], e);
      InBindingEdges(plan, last, last.consumes, e);
    }
  }

  lemma {:induction false} InAllRouteEdges(plan: Plan, modules: seq<Module>, e: Edge)
    ensures e in AllRouteEdges(plan, modules) <==>
            exists m, r :: m in modules && r in RoutesOf(m) && RouteEdge(plan, m, r) == Derived(e)
  {
    if modules == [] {
    } else {
      var last := modules[|modules| - 1];
      InAllRouteEdges(plan, modules[..|modules| - 1], e);
      InRouteEdges(plan, last, RoutesOf(last), e);
    }
  }

  lemma DerivedIffJustified(plan: Plan, e: Edge)
    ensures e in DerivedEdges(plan) <==> Justified(plan, e)
  {
    InAllBindingEdges(plan, plan.modules, e);
    InAllRouteEdges(plan, plan.modules, e);
  }

  /** The far end of an edge, as the edge maps keep it. */
  datatype Link = Link(peer: string, ports: Option<set<int>>)

  type EdgeMap = map<string, set<Link>>

  function LinksOf(edges: EdgeMap, id: string): set<Link> {
    if id in edges then edges[id] else {}
  }

  function WithLink(edges: EdgeMap, id: string, link: Link): EdgeMap {
    edges[id := LinksOf(edges, id) + {link}]
  }

  /** Both maps hold one and the same set of edges, seen from either end. */
  ghost predicate Represents(egress: EdgeMap, ingress: EdgeMap, edges: set<Edge>) {
    && (forall src, link :: link in LinksOf(egress, src) <==> Edge(src, link.peer, link.ports) in edges)
    && (forall dst, link :: link in LinksOf(ingress, dst) <==> Edge(link.peer, dst, link.ports) in edges)
  }

  lemma LinkRecorded(egress: EdgeMap, ingress: EdgeMap, edges: set<Edge>, e: Edge)
    requires Represents(egress, ingress, edges)
    ensures Represents(WithLink(egress, e.src, Link(e.dst, e.ports)), WithLink(ingress, e.dst, Link(e.src, e.ports)),
                       edges + {e})
  {
    var egress' := WithLink(egress, e.src, Link(e.dst, e.ports));
    var ingress' := WithLink(ingress, e.dst, Link(e.src, e.ports));
    forall id, link ensures (link in LinksOf(egress', id) <==> Edge(id, link.peer, link.ports) in edges + {e})
                         && (link in LinksOf(ingress', id) <==> Edge(link.peer, id, link.ports) in edges + {e})
    {
      assert link in LinksOf(egress, id) <==> Edge(id, link.peer, link.ports) in edges;
      assert link in LinksOf(ingress, id) <==> Edge(link.peer, id, link.ports) in edges;
    }
  }

  function EdgeSet(edge: Option<Edge>): set<Edge> {
    if edge.Some? then {edge.value} else {}
  }

  class EdgeBook {
    const plan: Plan
    var egress: EdgeMap
    var ingress: EdgeMap
    var diagnostics: seq<Diagnostic>

    constructor (plan: Plan)
      ensures this.plan == plan && Represents(egress, ingress, {}) && diagnostics == []
    {
      this.plan, egress, ingress, diagnostics := plan, map[], map[], [];
    }

    method Record(e: Edge, ghost edges: set<Edge>)
      requires Represents(egress, ingress, edges)
      modifies this`egress, this`ingress
      ensures Represents(egress, ingress, edges + {e})
    {
      egress := WithLink(egress, e.src, Link(e.dst, e.ports));
      ingress := WithLink(ingress, e.dst, Link(e.src, e.ports));
      LinkRecorded(old(egress), old(ingress), edges, e);
    }

    method RecordBindings(m: Module, ghost edges: set<Edge>)
      requires Represents(egress, ingress, edges)
      modifies this
      ensures Represents(egress, ingress, edges + BindingEdges(plan, m, m.consumes))
      ensures diagnostics == old(diagnostics) + UnscopedBindings(plan, m, m.consumes)
    {
      for i := 0 to |m.consumes|
        invariant Represents(egress, ingress, edges + BindingEdges(plan, m, m.consumes[..i]))
        invariant diagnostics == old(diagnostics) + UnscopedBindings(plan, m, m.consumes[..i])
      {
        assert m.consumes[..i + 1][..i] == m.consumes[..i];
        ghost var soFar := edges + BindingEdges(plan, m, m.consumes[..i]);
        RecordBinding(m, i, soFar);
        assert soFar + EdgeSet(BindingEdge(plan, m, m.consumes[i])) ==
               edges + BindingEdges(plan, m, m.consumes[..i + 1]);
      }
      assert m.consumes[..|m.consumes|] == m.consumes;
    }

    /** One more consumed contract. */
    method RecordBinding(m: Module, i: nat, ghost edges: set<Edge>)
      requires i < |m.consumes| && Represents(egress, ingress, edges)
      modifies this
      ensures var edge := BindingEdge(plan, m, m.consumes[i]);
              && Represents(egress, ingress, edges + EdgeSet(edge))
              && diagnostics ==
                 old(diagnostics) + if edge.Some? && edge.value.ports.None? then [UnscopedBinding(m.id, i)] else []
    {
      var edge := BindingEdge(plan, m, m.consumes[i]);
      assert edges + {} == edges;
      if edge.Some? {
        if edge.value.ports.None? {
          diagnostics := diagnostics + [UnscopedBinding(m.id, i)];
        }
        Record(edge.value, edges);
      }
    }

    method RecordRoutes(m: Module, ghost edges: set<Edge>)
      requires Represents(egress, ingress, edges)
      modifies this
      ensures Represents(egress, ingress, edges + RouteEdges(plan, m, RoutesOf(m)))
      ensures diagnostics == old(diagnostics) + UnderivedRoutes(plan, m, RoutesOf(m))
    {
      var routes := RoutesOf(m);
      for i := 0 to |routes|
        invariant Represents(egress, ingress, edges + RouteEdges(plan, m, routes[..i]))
        invariant diagnostics == old(diagnostics) + UnderivedRoutes(plan, m, routes[..i])
      {
        assert routes[..i + 1][..i] == routes[..i];
        ghost var soFar := edges + RouteEdges(plan, m, routes[..i]);
        match RouteEdge(plan, m, routes[i])
        case Skipped =>
          assert soFar == edges + RouteEdges(plan, m, routes[..i + 1]);
        case Unresolved =>
          diagnostics := diagnostics + [UnderivedRoute(m.id, i)];
          assert soFar == edges + RouteEdges(plan, m, routes[..i + 1]);
        case Derived(edge) =>
          Record(edge, soFar);
          assert soFar + {edge} == edges + RouteEdges(plan, m, routes[..i + 1]);
      }
      assert routes[..|routes|] == routes;
    }

    method DeriveBindings()
      requires Represents(egress, ingress, {}) && diagnostics == []
      modifies this
      ensures Represents(egress, ingress, AllBindingEdges(plan, plan.modules))
      ensures diagnostics == AllUnscopedBindings(plan, plan.modules)
    {
      var modules := plan.modules;
      for i := 0 to |modules|
        invariant Represents(egress, ingress, AllBindingEdges(plan, modules[..i]))
        invariant diagnostics == AllUnscopedBindings(plan, modules[..i])
      {
        assert modules[..i + 1][..i] == modules[..i];
        RecordBindings(modules[i], AllBindingEdges(plan, modules[..i]));
      }
      assert modules[..|modules|] == modules;
    }

    /** The pass over one more module's routes. */
    method DeriveRoutesOf(i: nat, ghost bound: set<Edge>, ghost before: seq<Diagnostic>)
      requires i < |plan.modules| && Represents(egress, ingress, bound + AllRouteEdges(plan, plan.modules[..i]))
      requires diagnostics == before + AllUnderivedRoutes(plan, plan.modules[..i])
      modifies this
      ensures Represents(egress, ingress, bound + AllRouteEdges(plan, plan.modules[..i + 1]))
      ensures diagnostics == before + AllUnderivedRoutes(plan, plan.modules[..i + 1])
    {
      OneMoreModule(plan, plan.modules, i, bound);
      RecordRoutes(plan.modules[i], bound + AllRouteEdges(plan, plan.modules[..i]));
    }

    method DeriveRoutes(ghost bound: set<Edge>)
      requires Represents(egress, ingress, bound)
      modifies this
      ensures Represents(egress, ingress, bound + AllRouteEdges(plan, plan.modules))
      ensures diagnostics == old(diagnostics) + AllUnderivedRoutes(plan, plan.modules)
    {
      assert bound + AllRouteEdges(plan, plan.modules[..0]) == bound;
      for i := 0 to |plan.modules|
        invariant Represents(egress, ingress, bound + AllRouteEdges(plan, plan.modules[..i]))
        invariant diagnostics == old(diagnostics) + AllUnderivedRoutes(plan, plan.modules[..i])
      {
        DeriveRoutesOf(i, bound, old(diagnostics));
      }
      assert plan.modules[..|plan.modules|] == plan.modules;
    }

    method DeriveEdges()
      requires Represents(egress, ingress, {}) && diagnostics == []
      modifies this
      ensures Represents(egress, ingress, DerivedEdges(plan))
      ensures diagnostics == AllUnscopedBindings(plan, plan.modules) + AllUnderivedRoutes(plan, plan.modules)
    {
      DeriveBindings();
      DeriveRoutes(AllBindingEdges(plan, plan.modules));
    }
  }

  lemma {:induction false} OneMoreModule(plan: Plan, modules: seq<Module>, i: nat, bound: set<Edge>)
    requires i < |modules|
    ensures bound + AllRouteEdges(plan, modules[..i + 1]) ==
            bound + AllRouteEdges(plan, modules[..i]) + RouteEdges(plan, modules[i], RoutesOf(modules[i]))
    ensures AllUnderivedRoutes(plan, modules[..i + 1]) ==
            AllUnderivedRoutes(plan, modules[..i]) + UnderivedRoutes(plan, modules[i], RoutesOf(modules[i]))
  {
    assert modules[..i + 1][..i] == modules[..i];
  }

  /** W128: bindings whose rule no port limits. */
  function UnscopedBindings(plan: Plan, m: Module, consumes: seq<Consume>): seq<Diagnostic> {
    if consumes == [] then []
    else
      var i := |consumes| - 1;
      var edge := BindingEdge(plan, m, consumes[i]);
      UnscopedBindings(plan, m, consumes[..i]) +
        if edge.Some? && edge.value.ports.None? then [UnscopedBinding(m.id, i)] else []
  }

  /** W129: routes that yield no edge and leave their target unreachable. */
  function UnderivedRoutes(plan: Plan, m: Module, routes: seq<Route>): seq<Diagnostic> {
    if routes == [] then []
    else
      var i := |routes| - 1;
      UnderivedRoutes(plan, m, routes[..i]) +
        if RouteEdge(plan, m, routes[i]).Unresolved? then [UnderivedRoute(m.id, i)] else []
  }

  function AllUnscopedBindings(plan: Plan, modules: seq<Module>): seq<Diagnostic> {
    if modules == [] then []
    else
      var last := modules[|modules| - 1];
      AllUnscopedBindings(plan, modules[..|modules| - 1]) + UnscopedBindings(plan, last, last.consumes)
  }

  function AllUnderivedRoutes(plan: Plan, modules: seq<Module>): seq<Diagnostic> {
    if modules == [] then []
    else
      var last := modules[|modules| - 1];
      AllUnderivedRoutes(plan, modules[..|modules| - 1]) + UnderivedRoutes(plan, last, RoutesOf(last))
  }

  lemma {:induction false} BindingsScopedIff(plan: Plan, m: Module, consumes: seq<Consume>)
    ensures UnscopedBindings(plan, m, consumes) == [] <==>
            forall c :: c in consumes && BindingEdge(plan, m, c).Some? ==> BindingEdge(plan, m, c).value.ports.Some?
  {
    if consumes == [] {
    } else {
      BindingsScopedIff(plan, m, consumes[..|consumes| - 1]);
      assert consumes == consumes[..|consumes| - 1] + [consumes[|consumes| - 1]];
    }
  }

  lemma {:induction false} RoutesDerivedIff(plan: Plan, m: Module, routes: seq<Route>)
    ensures UnderivedRoutes(plan, m, routes) == [] <==> forall r :: r in routes ==> !RouteEdge(plan, m, r).Unresolved?
  {
    if routes == [] {
    } else {
      RoutesDerivedIff(plan, m, routes[..|routes| - 1]);
      assert routes == routes[..|routes| - 1] + [routes[|routes| - 1]];
    }
  }

  // ---------------------------------------------------------------------------
  // Edges and warnings, in terms of what modules declare
  // ---------------------------------------------------------------------------

  ghost predicate IsPlanModule(plan: Plan, id: string) {
    exists m :: m in plan.modules && m.id == id
  }

  /** Edges run between different modules of the plan. */
  lemma EdgesRunBetweenModules(plan: Plan, e: Edge)
    requires Justified(plan, e)
    ensures e.src != e.dst && IsPlanModule(plan, e.src) && IsPlanModule(plan, e.dst)
  {
  }

  lemma {:induction false} InUnscoped(plan: Plan, m: Module, consumes: seq<Consume>, i: nat)
    ensures UnscopedBinding(m.id, i) in UnscopedBindings(plan, m, consumes) <==>
            i < |consumes| && BindingEdge(plan, m, consumes[i]).Some? &&
              BindingEdge(plan, m, consumes[i]).value.ports.None?
  {
    if consumes == [] {
    } else {
      InUnscoped(plan, m, consumes[..|consumes| - 1], i);
    }
  }

  lemma {:induction false} InUnderived(plan: Plan, m: Module, routes: seq<Route>, i: nat)
    ensures UnderivedRoute(m.id, i) in UnderivedRoutes(plan, m, routes) <==>
            i < |routes| && RouteEdge(plan, m, routes[i]).Unresolved?
  {
    if routes == [] {
    } else {
      InUnderived(plan, m, routes[..|routes| - 1], i);
    }
  }

  lemma {:induction false} NothingAdvertisedIff(surfaces: seq<Surface>)
    ensures NonEmpty(AdvertisedPorts(surfaces)) <==> exists s, n :: s in surfaces && n in s.ports
  {
    if surfaces == [] {
    } else {
      NothingAdvertisedIff(surfaces[1..]);
      assert forall s :: s in surfaces <==> s == surfaces[0] || s in surfaces[1..];
      var more := AdvertisedPorts(surfaces[1..]);
      assert forall n :: n in AdvertisedPorts(surfaces) <==> n in surfaces[0].ports || n in more;
    }
  }

  /** No port is given, and the module behind exposes none either. */
  ghost predicate NoPortKnown(plan: Plan, port: PortField, provider: string) {
    (forall n :: !Denotes(port, n)) && forall s, n :: s in SurfacesOf(plan, provider) ==> n !in s.ports
  }

  lemma NoScopeIff(plan: Plan, port: PortField, provider: string)
    ensures PortScope(port, SurfacesOf(plan, provider)).None? <==> NoPortKnown(plan, port, provider)
  {
    NothingAdvertisedIff(SurfacesOf(plan, provider));
    forall n ensures IntOrNone(port) == Some(n) <==> Denotes(port, n) { DenotesIff(port, n); }
  }

  /** W128 for exactly the contracts bound to another module of the plan for which no port is known. */
  lemma {:induction false} UnscopedIff(plan: Plan, m: Module, i: nat)
    ensures UnscopedBinding(m.id, i) in UnscopedBindings(plan, m, m.consumes) <==>
            && i < |m.consumes| && m.consumes[i].Binding?
            && var provider := ProviderOf(m.consumes[i].contractRef);
               provider != m.id && IsPlanModule(plan, provider) && NoPortKnown(plan, m.consumes[i].port, provider)
  {
    InUnscoped(plan, m, m.consumes, i);
    if i < |m.consumes| && m.consumes[i].Binding? {
      NoScopeIff(plan, m.consumes[i].port, ProviderOf(m.consumes[i].contractRef));
    }
  }

  /** The module provides a reverse proxy. */
  ghost predicate ProvidesProxy(m: Module) {
    exists name :: name in m.provided && m.provided[name].kind == "reverse-proxy"
  }

  /** A port number from 1 to 65535, as a number or as digits. */
  predicate IsPortNumber(port: PortField) {
    exists n :: 1 <= n <= 65535 && port in {Number(n), Text(Some(n), true)}
  }

  lemma BackendPortIff(port: PortField)
    ensures BackendPort(port) == if IsPortNumber(port) then port else Absent
  {
    match port
    case Number(n) => assert port in {Number(n), Text(Some(n), true)};
    case Text(Some(n), true) => assert port in {Number(n), Text(Some(n), true)};
    case _ =>
  }

  /** A route that names no http-service of another module, or one of the plan's without any known port. */
  ghost predicate LeadsNowhere(plan: Plan, m: Module, r: Route) {
    && r.Route?
    && match if r.contractRef.Some? then ParseContractRef(r.contractRef.value) else None
       case None => m.id != ""
       case Some((target, name)) =>
         && target != m.id
         && if target in plan.planModules && name in plan.planModules[target].provided &&
               plan.planModules[target].provided[name].kind == "http-service"
            then IsPlanModule(plan, target) &&
                   NoPortKnown(plan, BackendPort(plan.planModules[target].provided[name].port), target)
            else true
  }

  /** W129 for exactly the routes of a reverse proxy that lead nowhere. */
  lemma {:induction false} UnderivedIff(plan: Plan, m: Module, i: nat)
    ensures UnderivedRoute(m.id, i) in UnderivedRoutes(plan, m, RoutesOf(m)) <==>
            ProvidesProxy(m) && i < |m.routes| && LeadsNowhere(plan, m, m.routes[i])
  {
    InUnderived(plan, m, RoutesOf(m), i);
    if ProvidesProxy(m) {
      assert RoutesOf(m) == m.routes;
      if i < |m.routes| { UnresolvedIff(plan, m, m.routes[i]); }
    }
  }

  lemma UnresolvedIff(plan: Plan, m: Module, r: Route)
    ensures RouteEdge(plan, m, r).Unresolved? <==> LeadsNowhere(plan, m, r)
  {
    if r.Route? && r.contractRef.Some? && ParseContractRef(r.contractRef.value).Some? {
      var (target, name) := ParseContractRef(r.contractRef.value).value;
      if target in plan.planModules && name in plan.planModules[target].provided {
        NoScopeIff(plan, BackendPort(plan.planModules[target].provided[name].port), target);
      }
    }
  }

  /** No binding of the module is open on every port, and no route leads nowhere. */
  ghost predicate FullyScoped(plan: Plan, m: Module) {
    && (forall c :: c in m.consumes && BindingEdge(plan, m, c).Some? ==> BindingEdge(plan, m, c).value.ports.Some?)
    && (forall r :: r in RoutesOf(m) ==> !RouteEdge(plan, m, r).Unresolved?)
  }

  lemma {:induction false} ModuleSilentIff(plan: Plan, m: Module)
    ensures UnscopedBindings(plan, m, m.consumes) == [] && UnderivedRoutes(plan, m, RoutesOf(m)) == [] <==>
            FullyScoped(plan, m)
  {
    BindingsScopedIff(plan, m, m.consumes);
    RoutesDerivedIff(plan, m, RoutesOf(m));
  }

  lemma BothSilent(a: seq<Diagnostic>, b: seq<Diagnostic>)
    ensures a + b == [] <==> a == [] && b == []
  {
  }

  lemma {:induction false} SilentBindings(plan: Plan, modules: seq<Module>)
    ensures AllUnscopedBindings(plan, modules) == [] <==>
            forall i :: 0 <= i < |modules| ==> UnscopedBindings(plan, modules[i], modules[i].consumes) == []
  {
    if modules == [] {
    } else {
      var init, last := modules[..|modules| - 1], modules[|modules| - 1];
      SilentBindings(plan, init);
      assert forall i :: 0 <= i < |init| ==> init[i] == modules[i];
      BothSilent(AllUnscopedBindings(plan, init), UnscopedBindings(plan, last, last.consumes));
    }
  }

  lemma {:induction false} SilentRoutes(plan: Plan, modules: seq<Module>)
    ensures AllUnderivedRoutes(plan, modules) == [] <==>
            forall i :: 0 <= i < |modules| ==> UnderivedRoutes(plan, modules[i], RoutesOf(modules[i])) == []
  {
    if modules == [] {
    } else {
      var init, last := modules[..|modules| - 1], modules[|modules| - 1];
      SilentRoutes(plan, init);
      assert forall i :: 0 <= i < |init| ==> init[i] == modules[i];
      BothSilent(AllUnderivedRoutes(plan, init), UnderivedRoutes(plan, last, RoutesOf(last)));
    }
  }

  /** Generation is silent exactly when every binding is scoped and every route derived. */
  lemma {:induction false} SilentIffFullyScoped(plan: Plan, modules: seq<Module>)
    ensures AllUnscopedBindings(plan, modules) + AllUnderivedRoutes(plan, modules) == [] <==>
            forall i :: 0 <= i < |modules| ==> FullyScoped(plan, modules[i])
  {
    SilentBindings(plan, modules);
    SilentRoutes(plan, modules);
    forall i | 0 <= i < |modules|
      ensures FullyScoped(plan, modules[i]) <==>
              UnscopedBindings(plan, modules[i], modules[i].consumes) == [] &&
                UnderivedRoutes(plan, modules[i], RoutesOf(modules[i])) == []
    {
      ModuleSilentIff(plan, modules[i]);
    }
  }

  // ---------------------------------------------------------------------------
  // Policies
  // ---------------------------------------------------------------------------

  const RELEASE := "{{ .Release.Name }}"

  /** Labels of the pods of one workload (its full service name is `name`). */
  function PodLabels(release: string, id: string, name: string): Labels {
    map[ManagedBy := "cds", PartOf := release, ModuleId := id, WorkloadName := name, Instance := RELEASE]
  }

  function ModuleSelector(id: string): Labels {
    map[ModuleId := id, Instance := RELEASE]
  }

  function WorkloadSelector(id: string, name: string): Labels {
    map[ModuleId := id, WorkloadName := name, Instance := RELEASE]
  }

  function TcpPorts(ports: set<int>): set<PortRule> {
    set p | p in ports :: PortRule("TCP", p)
  }

  function PeerRule(id: string, ports: Option<set<int>>): Rule {
    Rule({Pods(ModuleSelector(id))}, if ports.Some? then TcpPorts(ports.value) else {})
  }

  const DNS_RULE := Rule({PodsIn(map[NamespaceName := "kube-system"], map[K8sApp := "kube-dns"])},
                         {PortRule("UDP", 53), PortRule("TCP", 53)})

  /** A NodePort or LoadBalancer Service opens its pod ports to every source. */
  predicate IsOpening(s: Surface) {
    (s.kind == "NodePort" || s.kind == "LoadBalancer") && NonEmpty(s.ports)
  }

  function Lookup<K, V>(m: map<K, seq<V>>, k: K): seq<V> {
    if k in m then m[k] else []
  }

  ghost predicate IsIngressRule(plan: Plan, id: string, rule: Rule) {
    || rule == PeerRule(id, None)
    || ForEdgeInto(DerivedEdges(plan), id, rule)
    || (exists s :: s in SurfacesOf(plan, id) && IsOpening(s) && rule == Rule({}, TcpPorts(s.ports)))
    || rule in Lookup(plan.customIngress, id)
  }

  ghost predicate IsEgressRule(plan: Plan, id: string, rule: Rule) {
    || rule == PeerRule(id, None)
    || rule == DNS_RULE
    || ForEdgeFrom(DerivedEdges(plan), id, rule)
    || rule in Lookup(plan.customEgress, id)
    || (exists entry :: entry in Lookup(plan.externalEgress, id) && rule == EgressRule(entry))
  }

  /** The policy of one module holds exactly these rules, in some order. */
  ghost predicate IsModulePolicy(plan: Plan, id: string, p: Policy) {
    && p.selector == ModuleSelector(id) && p.ingress.Some? && p.egress.Some?
    && (forall rule :: rule in p.ingress.value <==> IsIngressRule(plan, id, rule))
    && (forall rule :: rule in p.egress.value <==> IsEgressRule(plan, id, rule))
  }

  /** The additional policy of one workload with declared egress of its own. */
  ghost predicate IsWorkloadPolicy(plan: Plan, key: (string, string), p: Policy) {
    && p.selector == WorkloadSelector(key.0, ServiceName(key.0, key.1)) && p.ingress.None? && p.egress.Some?
    && forall rule :: rule in p.egress.value <==>
         exists entry :: entry in Lookup(plan.workloadEgress, key) && rule == EgressRule(entry)
  }

  ghost predicate ForLink(links: set<Link>, rule: Rule) {
    exists link :: link in links && rule == PeerRule(link.peer, link.ports)
  }

  ghost predicate ForEdgeInto(edges: set<Edge>, id: string, rule: Rule) {
    exists e :: e in edges && e.dst == id && rule == PeerRule(e.src, e.ports)
  }

  ghost predicate ForEdgeFrom(edges: set<Edge>, id: string, rule: Rule) {
    exists e :: e in edges && e.src == id && rule == PeerRule(e.dst, e.ports)
  }

  method PeerRules(links: set<Link>) returns (rules: seq<Rule>)
    ensures forall rule :: rule in rules <==> ForLink(links, rule)
  {
    rules := [];
    var todo := links;
    while todo != {}
      invariant todo <= links
      invariant forall rule :: rule in rules <==> ForLink(links - todo, rule)
    {
      var link :| link in todo;
      ghost var before := rules;
      rules := rules + [PeerRule(link.peer, link.ports)];
      assert forall l :: l in links - (todo - {link}) <==> l in links - todo || l == link;
      todo := todo - {link};
    }
  }

  method EntryRules(entries: seq<Entry>) returns (rules: seq<Rule>)
    ensures forall rule :: rule in rules <==> exists entry :: entry in entries && rule == EgressRule(entry)
  {
    rules := [];
    for i := 0 to |entries|
      invariant forall rule :: rule in rules <==> exists entry :: entry in entries[..i] && rule == EgressRule(entry)
    {
      assert entries[..i + 1] == entries[..i] + [entries[i]];
      rules := rules + [EgressRule(entries[i])];
    }
    assert entries[..|entries|] == entries;
  }

  method OpeningRules(surfaces: seq<Surface>) returns (rules: seq<Rule>)
    ensures forall rule :: rule in rules <==>
            exists s :: s in surfaces && IsOpening(s) && rule == Rule({}, TcpPorts(s.ports))
  {
    rules := [];
    for i := 0 to |surfaces|
      invariant forall rule :: rule in rules <==>
                exists s :: s in surfaces[..i] && IsOpening(s) && rule == Rule({}, TcpPorts(s.ports))
    {
      assert surfaces[..i + 1] == surfaces[..i] + [surfaces[i]];
      if IsOpening(surfaces[i]) {
        rules := rules + [Rule({}, TcpPorts(surfaces[i].ports))];
      }
    }
    assert surfaces[..|surfaces|] == surfaces;
  }

  method ModulePolicy(plan: Plan, id: string, egress: EdgeMap, ingress: EdgeMap) returns (p: Policy)
    requires Represents(egress, ingress, DerivedEdges(plan))
    ensures IsModulePolicy(plan, id, p)
  {
    var ingressPeers := PeerRules(LinksOf(ingress, id));
    var openings := OpeningRules(SurfacesOf(plan, id));
    var egressPeers := PeerRules(LinksOf(egress, id));
    var external := EntryRules(Lookup(plan.externalEgress, id));
    p := Policy(ModuleSelector(id),
                Some([PeerRule(id, None)] + ingressPeers + openings + Lookup(plan.customIngress, id)),
                Some([PeerRule(id, None), DNS_RULE] + egressPeers + Lookup(plan.customEgress, id) + external));
    LinksAreEdges(plan, id, egress, ingress);
  }

  lemma LinksAreEdges(plan: Plan, id: string, egress: EdgeMap, ingress: EdgeMap)
    requires Represents(egress, ingress, DerivedEdges(plan))
    ensures forall rule :: ForLink(LinksOf(ingress, id), rule) <==> ForEdgeInto(DerivedEdges(plan), id, rule)
    ensures forall rule :: ForLink(LinksOf(egress, id), rule) <==> ForEdgeFrom(DerivedEdges(plan), id, rule)
  {
    forall e | e in DerivedEdges(plan)
      ensures e.dst == id ==> Link(e.src, e.ports) in LinksOf(ingress, id)
      ensures e.src == id ==> Link(e.dst, e.ports) in LinksOf(egress, id)
    {
      assert Edge(e.src, Link(e.dst, e.ports).peer, Link(e.dst, e.ports).ports) == e;
      assert Edge(Link(e.src, e.ports).peer, e.dst, Link(e.src, e.ports).ports) == e;
    }
  }

  /** One policy per module, then one per workload that declares egress. */
  ghost predicate IsPolicySet(plan: Plan, policies: seq<Policy>, keys: seq<(string, string)>) {
    && |policies| == |plan.modules| + |keys|
    && (forall i :: 0 <= i < |plan.modules| ==> IsModulePolicy(plan, plan.modules[i].id, policies[i]))
    && (forall j :: 0 <= j < |keys| ==> IsWorkloadPolicy(plan, keys[j], policies[|plan.modules| + j]))
    && (forall key :: key in keys <==> key in plan.workloadEgress && plan.workloadEgress[key] != [])
  }

  lemma JoinedPolicySet(plan: Plan, modules: seq<Policy>, extra: seq<Policy>, keys: seq<(string, string)>)
    requires |modules| == |plan.modules| && |extra| == |keys|
    requires forall i :: 0 <= i < |modules| ==> IsModulePolicy(plan, plan.modules[i].id, modules[i])
    requires forall j :: 0 <= j < |keys| ==> IsWorkloadPolicy(plan, keys[j], extra[j])
    requires forall key :: key in keys <==> key in plan.workloadEgress && plan.workloadEgress[key] != []
    ensures IsPolicySet(plan, modules + extra, keys)
  {
    JoinedAt(modules, extra);
  }

  lemma JoinedAt(modules: seq<Policy>, extra: seq<Policy>)
    ensures |modules + extra| == |modules| + |extra|
    ensures forall i :: 0 <= i < |modules| ==> (modules + extra)[i] == modules[i]
    ensures forall j :: 0 <= j < |extra| ==> (modules + extra)[|modules| + j] == extra[j]
  {
  }

  method NetworkPolicyManifests(plan: Plan)
    returns (policies: seq<Policy>, ghost keys: seq<(string, string)>, diagnostics: seq<Diagnostic>)
    ensures IsPolicySet(plan, policies, keys)
    ensures diagnostics == AllUnscopedBindings(plan, plan.modules) + AllUnderivedRoutes(plan, plan.modules)
  {
    var book := new EdgeBook(plan);
    book.DeriveEdges();
    diagnostics := book.diagnostics;
    var modules := ModulePolicies(plan, book.egress, book.ingress);
    var extra, keys' := WorkloadPolicies(plan);
    JoinedPolicySet(plan, modules, extra, keys');
    policies, keys := modules + extra, keys';
  }

  method ModulePolicies(plan: Plan, egress: EdgeMap, ingress: EdgeMap) returns (policies: seq<Policy>)
    requires Represents(egress, ingress, DerivedEdges(plan))
    ensures |policies| == |plan.modules|
    ensures forall i :: 0 <= i < |policies| ==> IsModulePolicy(plan, plan.modules[i].id, policies[i])
  {
    policies := [];
    for i := 0 to |plan.modules|
      invariant |policies| == i
      invariant forall j :: 0 <= j < i ==> IsModulePolicy(plan, plan.modules[j].id, policies[j])
    {
      var p := ModulePolicy(plan, plan.modules[i].id, egress, ingress);
      policies := policies + [p];
    }
  }

  method WorkloadPolicies(plan: Plan) returns (policies: seq<Policy>, ghost keys: seq<(string, string)>)
    ensures |policies| == |keys|
    ensures forall j :: 0 <= j < |keys| ==> IsWorkloadPolicy(plan, keys[j], policies[j])
    ensures forall key :: key in keys <==> key in plan.workloadEgress && plan.workloadEgress[key] != []
  {
    policies, keys := [], [];
    var todo := plan.workloadEgress.Keys;
    while todo != {}
      invariant todo <= plan.workloadEgress.Keys && |policies| == |keys|
      invariant forall j :: 0 <= j < |keys| ==> IsWorkloadPolicy(plan, keys[j], policies[j])
      invariant forall key :: key in keys <==> key in plan.workloadEgress.Keys - todo && plan.workloadEgress[key] != []
    {
      var key :| key in todo;
      var entries := plan.workloadEgress[key];
      if entries != [] {
        var rules := EntryRules(entries);
        policies := policies + [Policy(WorkloadSelector(key.0, ServiceName(key.0, key.1)), None, Some(rules))];
        keys := keys + [key];
      }
      todo := todo - {key};
    }
  }

  // ---------------------------------------------------------------------------
  // What the policies let through
  // ---------------------------------------------------------------------------

  ghost predicate DistinctIds(plan: Plan) {
    forall i, j :: 0 <= i < j < |plan.modules| ==> plan.modules[i].id != plan.modules[j].id
  }

  /** A pod the chart runs for a workload of module `id`. */
  ghost predicate IsModulePod(id: string, e: Endpoint) {
    && e.pod.Some? && e.pod.value.inRelease
    && exists release, name :: e.pod.value.labels == PodLabels(release, id, name)
  }

  ghost predicate NoCustomRules(plan: Plan) {
    forall id :: Lookup(plan.customIngress, id) == [] && Lookup(plan.customEgress, id) == []
  }

  ghost predicate NoDeclaredEgress(plan: Plan) {
    && (forall id :: Lookup(plan.externalEgress, id) == [])
    && (forall key :: Lookup(plan.workloadEgress, key) == [])
  }

  lemma SelectorPicksModule(id: string, other: string, e: Endpoint)
    requires IsModulePod(other, e)
    ensures Selects(ModuleSelector(id), e.pod.value.labels) <==> id == other
    ensures !Selects(map[K8sApp := "kube-dns"], e.pod.value.labels)
  {
    var release, name :| e.pod.value.labels == PodLabels(release, other, name);
    assert ModuleId in ModuleSelector(id) && ModuleSelector(id)[ModuleId] == id;
    assert K8sApp in map[K8sApp := "kube-dns"] && K8sApp !in e.pod.value.labels;
  }

  /** Traffic one derived edge is meant to carry. */
  predicate Carries(e: Edge, protocol: string, port: int) {
    e.ports.None? || (protocol == "TCP" && port in e.ports.value)
  }

  lemma TcpPortsNonEmpty(ports: set<int>)
    requires NonEmpty(ports)
    ensures TcpPorts(ports) != {}
  {
    var p :| p in ports;
    assert PortRule("TCP", p) in TcpPorts(ports);
  }

  lemma PeerRuleAdmits(id: string, ports: Option<set<int>>, other: string, e: Endpoint, protocol: string, port: int)
    requires IsModulePod(other, e) && SomePort(ports)
    ensures RuleAdmits(PeerRule(id, ports), e, protocol, port) <==>
            id == other && (ports.None? || (protocol == "TCP" && port in ports.value))
  {
    SelectorPicksModule(id, other, e);
    var peer := Pods(ModuleSelector(id));
    var rule := PeerRule(id, ports);
    assert rule.peers == {peer} && peer in rule.peers;
    if ports.Some? {
      TcpPortsNonEmpty(ports.value);
    }
  }

  lemma NoOtherRuleReachesModulePod(id: string, e: Endpoint, rule: Rule, protocol: string, port: int)
    requires IsModulePod(id, e) && rule == DNS_RULE
    ensures !RuleAdmits(rule, e, protocol, port)
  {
    SelectorPicksModule(id, id, e);
    var peer := PodsIn(map[NamespaceName := "kube-system"], map[K8sApp := "kube-dns"]);
    assert rule.peers == {peer} && peer in rule.peers;
  }

  lemma NoWorkloadPolicies(plan: Plan, policies: seq<Policy>, keys: seq<(string, string)>)
    requires IsPolicySet(plan, policies, keys)
    ensures keys != [] ==> !NoDeclaredEgress(plan)
  {
    if keys != [] {
      assert keys[0] in keys && Lookup(plan.workloadEgress, keys[0]) != [];
    }
  }

  /** Of all policies, only a pod's own module's has rules for it (no workload egress here). */
  lemma OnlyOwnPolicy(plan: Plan, policies: seq<Policy>, keys: seq<(string, string)>, e: Endpoint, k: nat)
    requires DistinctIds(plan) && NoDeclaredEgress(plan) && IsPolicySet(plan, policies, keys)
    requires k < |plan.modules| && IsModulePod(plan.modules[k].id, e)
    ensures forall p :: p in policies && Applies(p, e) <==> p == policies[k]
  {
    var id := plan.modules[k].id;
    NoWorkloadPolicies(plan, policies, keys);
    forall i | 0 <= i < |policies| ensures Applies(policies[i], e) <==> i == k {
      SelectorPicksModule(plan.modules[i].id, id, e);
      assert IsModulePolicy(plan, plan.modules[i].id, policies[i]);
    }
  }

  ghost predicate ReachPremises(plan: Plan, policies: seq<Policy>, keys: seq<(string, string)>) {
    DistinctIds(plan) && NoCustomRules(plan) && NoDeclaredEgress(plan) && IsPolicySet(plan, policies, keys)
  }

  lemma EdgePortsNeverEmpty(plan: Plan, e: Edge)
    requires e in DerivedEdges(plan)
    ensures SomePort(e.ports)
  {
    DerivedIffJustified(plan, e);
    if m, c :| m in plan.modules && c in m.consumes && BindingEdge(plan, m, c) == Some(e) {
      PortScopeNeverEmpty(c.port, SurfacesOf(plan, e.dst));
    } else {
      var m, r :| m in plan.modules && r in RoutesOf(m) && RouteEdge(plan, m, r) == Derived(e);
      var (target, name) := ParseContractRef(r.contractRef.value).value;
      PortScopeNeverEmpty(BackendPort(plan.planModules[target].provided[name].port), SurfacesOf(plan, target));
    }
  }

  lemma EgressRulesToModulePod(plan: Plan, a: string, b: string, dst: Endpoint, rule: Rule, protocol: string, port: int)
    requires NoCustomRules(plan) && NoDeclaredEgress(plan) && a != b && IsModulePod(b, dst)
    requires IsEgressRule(plan, a, rule) && RuleAdmits(rule, dst, protocol, port)
    ensures exists e :: e in DerivedEdges(plan) && e.src == a && e.dst == b && Carries(e, protocol, port)
  {
    PeerRuleAdmits(a, None, b, dst, protocol, port);
    NoOtherRuleReachesModulePod(b, dst, DNS_RULE, protocol, port);
    assert ForEdgeFrom(DerivedEdges(plan), a, rule);
    var e :| e in DerivedEdges(plan) && e.src == a && rule == PeerRule(e.dst, e.ports);
    EdgePortsNeverEmpty(plan, e);
    PeerRuleAdmits(e.dst, e.ports, b, dst, protocol, port);
    assert Carries(e, protocol, port);
  }

  /**
   Between pods of different modules exactly the traffic of a justified edge passes
   both generated policies.
   */
  lemma ModuleReachIffEdge(
    plan: Plan, policies: seq<Policy>, keys: seq<(string, string)>, i: nat, j: nat,
    src: Endpoint, dst: Endpoint, protocol: string, port: int)
    requires ReachPremises(plan, policies, keys) && i < |plan.modules| && j < |plan.modules| && i != j
    requires IsModulePod(plan.modules[i].id, src) && IsModulePod(plan.modules[j].id, dst)
    ensures Allowed(policies, src, dst, protocol, port) <==>
            exists e :: Justified(plan, e) && e.src == plan.modules[i].id && e.dst == plan.modules[j].id &&
              Carries(e, protocol, port)
  {
    var a, b := plan.modules[i].id, plan.modules[j].id;
    OnlyOwnPolicy(plan, policies, keys, src, i);
    OnlyOwnPolicy(plan, policies, keys, dst, j);
    assert IsModulePolicy(plan, a, policies[i]) && IsModulePolicy(plan, b, policies[j]);
    assert policies[i] in policies && policies[j] in policies;
    if EgressAllowed(policies, src, dst, protocol, port) {
      assert Applies(policies[i], src);
      var p, rule :| p in policies && Applies(p, src) && p.egress.Some? && rule in p.egress.value &&
        RuleAdmits(rule, dst, protocol, port);
      EgressRulesToModulePod(plan, a, b, dst, rule, protocol, port);
      var e :| e in DerivedEdges(plan) && e.src == a && e.dst == b && Carries(e, protocol, port);
      DerivedIffJustified(plan, e);
    }
    if e :| Justified(plan, e) && e.src == a && e.dst == b && Carries(e, protocol, port) {
      DerivedIffJustified(plan, e);
      EdgeAdmitted(plan, policies, i, j, e, src, dst, protocol, port);
    }
  }

  lemma EdgeAdmitted(
    plan: Plan, policies: seq<Policy>, i: nat, j: nat, e: Edge, src: Endpoint, dst: Endpoint, protocol: string,
    port: int)
    requires i < |plan.modules| <= |policies| && j < |plan.modules|
    requires e in DerivedEdges(plan) && e.src == plan.modules[i].id && e.dst == plan.modules[j].id &&
             Carries(e, protocol, port)
    requires IsModulePolicy(plan, e.src, policies[i]) && IsModulePolicy(plan, e.dst, policies[j])
    requires IsModulePod(e.src, src) && IsModulePod(e.dst, dst)
    ensures Allowed(policies, src, dst, protocol, port)
  {
    EdgePortsNeverEmpty(plan, e);
    SelectorPicksModule(e.src, e.src, src);
    SelectorPicksModule(e.dst, e.dst, dst);
    PeerRuleAdmits(e.dst, e.ports, e.dst, dst, protocol, port);
    PeerRuleAdmits(e.src, e.ports, e.src, src, protocol, port);
    assert ForEdgeFrom(DerivedEdges(plan), e.src, PeerRule(e.dst, e.ports));
    assert ForEdgeInto(DerivedEdges(plan), e.dst, PeerRule(e.src, e.ports));
    assert policies[i] in policies && PeerRule(e.dst, e.ports) in policies[i].egress.value;
    assert policies[j] in policies && PeerRule(e.src, e.ports) in policies[j].ingress.value;
  }

  /** A pod port the provider maps a binding's Service port to can be reached through the binding. */
  lemma RemappedPortConnects(
    plan: Plan, policies: seq<Policy>, keys: seq<(string, string)>, i: nat, j: nat, c: Consume,
    workloads: seq<Workload>, w: Workload, p: ServicePort, facing: int, n: int, src: Endpoint, dst: Endpoint)
    requires ReachPremises(plan, policies, keys) && i < |plan.modules| && j < |plan.modules| && i != j
    requires IsModulePod(plan.modules[i].id, src) && IsModulePod(plan.modules[j].id, dst)
    requires c in plan.modules[i].consumes && c.Binding? && ProviderOf(c.contractRef) == plan.modules[j].id
    requires AllSummarized(SurfacesOf(plan, plan.modules[j].id), workloads) && w in workloads && p in w.ports
    requires IntOrNone(c.port) == Some(facing) && Maps(p, facing, n)
    ensures Allowed(policies, src, dst, "TCP", n)
  {
    RemappedPortsInScope(c.port, facing, n, SurfacesOf(plan, plan.modules[j].id), workloads, w, p);
    var e := BindingEdge(plan, plan.modules[i], c).value;
    assert Justified(plan, e) && Carries(e, "TCP", n);
    ModuleReachIffEdge(plan, policies, keys, i, j, src, dst, "TCP", n);
  }

  /** The module and the port of the http-service contract a route leads to. */
  function RouteContract(plan: Plan, r: Route): Option<(string, PortField)> {
    if r.NotARoute? || r.contractRef.None? || ParseContractRef(r.contractRef.value).None? then None
    else
      var (target, name) := ParseContractRef(r.contractRef.value).value;
      var entry := HttpEntry(plan.planModules, target, name);
      if entry.Some? then Some((target, BackendPort(entry.value.port))) else None
  }

  /** The module consumes, or routes to, a contract of `target` with this port. */
  ghost predicate WiredTo(plan: Plan, m: Module, target: string, port: PortField) {
    || (exists c :: c in m.consumes && c.Binding? && ProviderOf(c.contractRef) == target && c.port == port)
    || (exists r :: r in RoutesOf(m) && RouteContract(plan, r) == Some((target, port)))
  }

  lemma BindingEdgeReaches(plan: Plan, m: Module, c: Consume, n: int, workloads: seq<Workload>)
    requires BindingEdge(plan, m, c).Some? && AllSummarized(SurfacesOf(plan, ProviderOf(c.contractRef)), workloads)
    ensures Carries(BindingEdge(plan, m, c).value, "TCP", n) <==> PortReaches(c.port, workloads, n)
  {
    PortScopeIff(c.port, n, SurfacesOf(plan, ProviderOf(c.contractRef)), workloads);
  }

  lemma RouteEdgeReaches(plan: Plan, m: Module, r: Route, n: int, workloads: seq<Workload>)
    requires RouteContract(plan, r).Some?
    requires AllSummarized(SurfacesOf(plan, RouteContract(plan, r).value.0), workloads) && ExposedBy(workloads, n)
    ensures var (target, port) := RouteContract(plan, r).value;
            && (target in Ids(plan) && target != m.id ==> RouteEdge(plan, m, r).Derived?)
            && (RouteEdge(plan, m, r).Derived? ==>
                  (Carries(RouteEdge(plan, m, r).edge, "TCP", n) <==> PortReaches(port, workloads, n)))
  {
    var (target, port) := RouteContract(plan, r).value;
    PortScopeIff(port, n, SurfacesOf(plan, target), workloads);
  }

  lemma SameIdSameModule(plan: Plan, m: Module, m': Module)
    requires DistinctIds(plan) && m in plan.modules && m' in plan.modules && m.id == m'.id
    ensures m == m'
  {
    var i, j :| 0 <= i < |plan.modules| && 0 <= j < |plan.modules| && plan.modules[i] == m && plan.modules[j] == m';
    assert i < j || j < i || i == j;
  }

  /** The edge comes from a binding or a route of the module it starts at. */
  lemma OwnJustification(plan: Plan, m: Module, e: Edge)
    requires DistinctIds(plan) && m in plan.modules && Justified(plan, e) && e.src == m.id
    ensures || (exists c :: c in m.consumes && BindingEdge(plan, m, c) == Some(e))
            || (exists r :: r in RoutesOf(m) && RouteEdge(plan, m, r) == Derived(e))
  {
    if m', c :| m' in plan.modules && c in m'.consumes && BindingEdge(plan, m', c) == Some(e) {
      SameIdSameModule(plan, m, m');
    } else {
      var m', r :| m' in plan.modules && r in RoutesOf(m') && RouteEdge(plan, m', r) == Derived(e);
      SameIdSameModule(plan, m, m');
    }
  }

  lemma DerivedHasContract(plan: Plan, m: Module, r: Route)
    requires RouteEdge(plan, m, r).Derived?
    ensures RouteContract(plan, r).Some? && RouteContract(plan, r).value.0 == RouteEdge(plan, m, r).edge.dst
  {
  }

  /** A route leads to the http-service it names; a port that is no port number counts as none. */
  lemma RouteContractIff(plan: Plan, r: Route, target: string, port: PortField)
    ensures RouteContract(plan, r) == Some((target, port)) <==>
            exists name ::
              && r == Route(Some(target + "." + name)) && target != "" && '.' !in target && name != ""
              && target in plan.planModules && name in plan.planModules[target].provided
              && plan.planModules[target].provided[name].kind == "http-service"
              && var p := plan.planModules[target].provided[name].port; port == if IsPortNumber(p) then p else Absent
  {
    if r.Route? && r.contractRef.Some? {
      forall id, name
        ensures ParseContractRef(r.contractRef.value) == Some((id, name)) <==>
                r.contractRef.value == id + "." + name && '.' !in id && id != "" && name != ""
      {
        ParsedIff(r.contractRef.value, id, name);
      }
      forall p ensures BackendPort(p) == if IsPortNumber(p) then p else Absent { BackendPortIff(p); }
    }
  }

  lemma EdgeIsWired(plan: Plan, m: Module, e: Edge, n: int, workloads: seq<Workload>)
    requires DistinctIds(plan) && m in plan.modules && Justified(plan, e) && e.src == m.id && Carries(e, "TCP", n)
    requires AllSummarized(SurfacesOf(plan, e.dst), workloads) && ExposedBy(workloads, n)
    ensures exists port :: WiredTo(plan, m, e.dst, port) && PortReaches(port, workloads, n)
  {
    OwnJustification(plan, m, e);
    if c :| c in m.consumes && BindingEdge(plan, m, c) == Some(e) {
      BindingEdgeReaches(plan, m, c, n, workloads);
      assert WiredTo(plan, m, e.dst, c.port);
    } else {
      var r :| r in RoutesOf(m) && RouteEdge(plan, m, r) == Derived(e);
      DerivedHasContract(plan, m, r);
      RouteEdgeReaches(plan, m, r, n, workloads);
      assert WiredTo(plan, m, e.dst, RouteContract(plan, r).value.1);
    }
  }

  lemma WiredHasEdge(plan: Plan, m: Module, target: string, port: PortField, n: int, workloads: seq<Workload>)
    requires m in plan.modules && target in Ids(plan) && target != m.id
    requires AllSummarized(SurfacesOf(plan, target), workloads) && ExposedBy(workloads, n)
    requires WiredTo(plan, m, target, port) && PortReaches(port, workloads, n)
    ensures exists e :: Justified(plan, e) && e.src == m.id && e.dst == target && Carries(e, "TCP", n)
  {
    if c :| c in m.consumes && c.Binding? && ProviderOf(c.contractRef) == target && c.port == port {
      BindingEdgeReaches(plan, m, c, n, workloads);
      assert Justified(plan, BindingEdge(plan, m, c).value);
    } else {
      var r :| r in RoutesOf(m) && RouteContract(plan, r) == Some((target, port));
      RouteEdgeReaches(plan, m, r, n, workloads);
      assert Justified(plan, RouteEdge(plan, m, r).edge);
    }
  }

  /** A pod port another module exposes can be reached exactly through a contract whose port opens it. */
  lemma ReachIffWired(
    plan: Plan, policies: seq<Policy>, keys: seq<(string, string)>, i: nat, j: nat, workloads: seq<Workload>,
    src: Endpoint, dst: Endpoint, n: int)
    requires ReachPremises(plan, policies, keys) && i < |plan.modules| && j < |plan.modules| && i != j
    requires IsModulePod(plan.modules[i].id, src) && IsModulePod(plan.modules[j].id, dst)
    requires AllSummarized(SurfacesOf(plan, plan.modules[j].id), workloads) && ExposedBy(workloads, n)
    ensures Allowed(policies, src, dst, "TCP", n) <==>
            exists port :: WiredTo(plan, plan.modules[i], plan.modules[j].id, port) && PortReaches(port, workloads, n)
  {
    var m, target := plan.modules[i], plan.modules[j].id;
    ModuleReachIffEdge(plan, policies, keys, i, j, src, dst, "TCP", n);
    if e :| Justified(plan, e) && e.src == m.id && e.dst == target && Carries(e, "TCP", n) {
      EdgeIsWired(plan, m, e, n, workloads);
    }
    if port :| WiredTo(plan, m, target, port) && PortReaches(port, workloads, n) {
      WiredHasEdge(plan, m, target, port, n, workloads);
    }
  }

  /** Module `a` is bound to port `f` of module `b`, whose one Service remaps it to the pod port `t`. */
  ghost predicate RemapsOnly(plan: Plan, a: string, b: string, f: int, t: int) {
    && plan.modules == [Module(a, [Binding(b + ".x", Number(f), "")], map[], []), Module(b, [], map[], [])]
    && b in plan.surfaces && |plan.surfaces[b]| == 1
    && Summarizes(plan.surfaces[b][0], Workload(true, "", [ServicePort(Number(f), Some(Number(t)))]))
  }

  /** The binding opens the pod port and not the Service port. */
  lemma RemapReach(
    plan: Plan, policies: seq<Policy>, keys: seq<(string, string)>, a: string, b: string, f: int, t: int,
    src: Endpoint, dst: Endpoint)
    requires RemapsOnly(plan, a, b, f, t) && a != b && '.' !in b && f != t
    requires ReachPremises(plan, policies, keys) && IsModulePod(a, src) && IsModulePod(b, dst)
    ensures Allowed(policies, src, dst, "TCP", t) && !Allowed(policies, src, dst, "TCP", f)
  {
    var p := ServicePort(Number(f), Some(Number(t)));
    var w := Workload(true, "", [p]);
    var c := plan.modules[0].consumes[0];
    ProviderIff(b, "x");
    assert c.contractRef == b + "." + "x" && w in [w] && p in w.ports && Maps(p, f, t);
    RemappedPortConnects(plan, policies, keys, 0, 1, c, [w], w, p, f, t, src, dst);
    forall e | Justified(plan, e) && e.src == a && e.dst == b ensures !Carries(e, "TCP", f) {
      RemapEdge(plan, a, b, f, t, e);
    }
    ModuleReachIffEdge(plan, policies, keys, 0, 1, src, dst, "TCP", f);
  }

  lemma RemapEdge(plan: Plan, a: string, b: string, f: int, t: int, e: Edge)
    requires RemapsOnly(plan, a, b, f, t) && DistinctIds(plan) && f != t
    requires Justified(plan, e) && e.src == a && e.dst == b
    ensures !Carries(e, "TCP", f)
  {
    var m, w := plan.modules[0], Workload(true, "", [ServicePort(Number(f), Some(Number(t)))]);
    OwnJustification(plan, m, e);
    assert RoutesOf(m) == [];
    var c :| c in m.consumes && BindingEdge(plan, m, c) == Some(e);
    BindingEdgeReaches(plan, m, c, f, [w]);
    RemapLeads(f, t);
  }

  lemma RemapLeads(f: int, t: int)
    requires f != t
    ensures !PortReaches(Number(f), [Workload(true, "", [ServicePort(Number(f), Some(Number(t)))])], f)
  {
    var p := ServicePort(Number(f), Some(Number(t)));
    var w := Workload(true, "", [p]);
    assert p in w.ports && w in [w];
    assert Maps(p, f, t) && LeadsTo([w], f, t);
    assert !Maps(p, f, f) && !LeadsTo([w], f, f);
  }

  /** Of the pods outside the release, a pod reaches exactly the cluster's DNS, and that on port 53. */
  lemma ReachesDnsOnly(
    plan: Plan, policies: seq<Policy>, keys: seq<(string, string)>, i: nat, src: Endpoint, dst: Endpoint,
    protocol: string, port: int)
    requires ReachPremises(plan, policies, keys) && i < |plan.modules| && IsModulePod(plan.modules[i].id, src)
    requires dst.pod.Some? && !dst.pod.value.inRelease
    ensures EgressAllowed(policies, src, dst, protocol, port) <==>
            && NamespaceName in dst.pod.value.namespaceLabels
            && dst.pod.value.namespaceLabels[NamespaceName] == "kube-system"
            && K8sApp in dst.pod.value.labels && dst.pod.value.labels[K8sApp] == "kube-dns"
            && port == 53 && protocol in {"TCP", "UDP"}
  {
    var id := plan.modules[i].id;
    OnlyOwnPolicy(plan, policies, keys, src, i);
    assert IsModulePolicy(plan, id, policies[i]) && policies[i] in policies && Applies(policies[i], src);
    DnsRuleAdmits(dst, protocol, port);
    forall rule | IsEgressRule(plan, id, rule) && rule != DNS_RULE ensures !RuleAdmits(rule, dst, protocol, port) {
      if rule == PeerRule(id, None) {
        assert Pods(ModuleSelector(id)) in rule.peers;
      } else if ForEdgeFrom(DerivedEdges(plan), id, rule) {
        var e :| e in DerivedEdges(plan) && e.src == id && rule == PeerRule(e.dst, e.ports);
        assert Pods(ModuleSelector(e.dst)) in rule.peers;
      }
    }
    assert DNS_RULE in policies[i].egress.value;
  }

  lemma DnsRuleAdmits(dst: Endpoint, protocol: string, port: int)
    requires dst.pod.Some?
    ensures RuleAdmits(DNS_RULE, dst, protocol, port) <==>
            && NamespaceName in dst.pod.value.namespaceLabels
            && dst.pod.value.namespaceLabels[NamespaceName] == "kube-system"
            && K8sApp in dst.pod.value.labels && dst.pod.value.labels[K8sApp] == "kube-dns"
            && port == 53 && protocol in {"TCP", "UDP"}
  {
    var peer := PodsIn(map[NamespaceName := "kube-system"], map[K8sApp := "kube-dns"]);
    assert DNS_RULE.peers == {peer} && peer in DNS_RULE.peers;
    assert PortRule("UDP", 53) in DNS_RULE.ports;
  }

  /** Pods of one module reach each other whatever else is declared. */
  lemma SameModuleConnects(
    plan: Plan, policies: seq<Policy>, keys: seq<(string, string)>, i: nat,
    src: Endpoint, dst: Endpoint, protocol: string, port: int)
    requires IsPolicySet(plan, policies, keys) && i < |plan.modules|
    requires IsModulePod(plan.modules[i].id, src) && IsModulePod(plan.modules[i].id, dst)
    ensures Allowed(policies, src, dst, protocol, port)
  {
    var id := plan.modules[i].id;
    SelectorPicksModule(id, id, src);
    SelectorPicksModule(id, id, dst);
    PeerRuleAdmits(id, None, id, src, protocol, port);
    PeerRuleAdmits(id, None, id, dst, protocol, port);
    assert IsModulePolicy(plan, id, policies[i]) && policies[i] in policies;
    assert PeerRule(id, None) in policies[i].egress.value && PeerRule(id, None) in policies[i].ingress.value;
  }

  // ---------------------------------------------------------------------------
  // Openings: NodePort and LoadBalancer Services
  // ---------------------------------------------------------------------------

  /** The same ports behind Services of possibly different types. */
  ghost predicate SamePorts(a: seq<Surface>, b: seq<Surface>) {
    |a| == |b| && forall i :: 0 <= i < |a| ==> a[i].ports == b[i].ports && a[i].portMap == b[i].portMap
  }

  lemma {:induction false} SameScope(port: PortField, a: seq<Surface>, b: seq<Surface>)
    requires SamePorts(a, b)
    ensures PortScope(port, a) == PortScope(port, b)
  {
    SameAdvertised(a, b);
    if IntOrNone(port).Some? { SameMapped(IntOrNone(port).value, a, b); }
  }

  lemma {:induction false} SameAdvertised(a: seq<Surface>, b: seq<Surface>)
    requires SamePorts(a, b)
    ensures AdvertisedPorts(a) == AdvertisedPorts(b)
  {
    if a == [] {
    } else {
      SameAdvertised(a[1..], b[1..]);
    }
  }

  lemma {:induction false} SameMapped(p: int, a: seq<Surface>, b: seq<Surface>)
    requires SamePorts(a, b)
    ensures MappedPorts(p, a) == MappedPorts(p, b)
  {
    if a == [] {
    } else {
      SameMapped(p, a[1..], b[1..]);
    }
  }

  /** Changing only Service types changes no derived edge. */
  lemma OpeningsDeriveNoEdge(plan: Plan, surfaces: map<string, seq<Surface>>)
    requires forall id :: SamePorts(SurfacesOf(plan, id), SurfacesOf(plan.(surfaces := surfaces), id))
    ensures forall e :: Justified(plan, e) <==> Justified(plan.(surfaces := surfaces), e)
  {
    var plan' := plan.(surfaces := surfaces);
    assert Ids(plan') == Ids(plan);
    forall m, c ensures BindingEdge(plan, m, c) == BindingEdge(plan', m, c) {
      if c.Binding? {
        SameScope(c.port, SurfacesOf(plan, ProviderOf(c.contractRef)), SurfacesOf(plan', ProviderOf(c.contractRef)));
      }
    }
    forall m, r ensures RouteEdge(plan, m, r) == RouteEdge(plan', m, r) {
      SameRouteEdge(plan, plan', m, r);
    }
  }

  /** So a NodePort or LoadBalancer alone never lets one module reach another, nor cuts it off. */
  lemma OpeningsAddNoReach(
    plan: Plan, surfaces: map<string, seq<Surface>>, policies: seq<Policy>, keys: seq<(string, string)>,
    policies': seq<Policy>, keys': seq<(string, string)>, i: nat, j: nat, src: Endpoint, dst: Endpoint,
    protocol: string, port: int)
    requires forall id :: SamePorts(SurfacesOf(plan, id), SurfacesOf(plan.(surfaces := surfaces), id))
    requires ReachPremises(plan, policies, keys) && ReachPremises(plan.(surfaces := surfaces), policies', keys')
    requires i < |plan.modules| && j < |plan.modules| && i != j
    requires IsModulePod(plan.modules[i].id, src) && IsModulePod(plan.modules[j].id, dst)
    ensures Allowed(policies, src, dst, protocol, port) <==> Allowed(policies', src, dst, protocol, port)
  {
    OpeningsDeriveNoEdge(plan, surfaces);
    ModuleReachIffEdge(plan, policies, keys, i, j, src, dst, protocol, port);
    ModuleReachIffEdge(plan.(surfaces := surfaces), policies', keys', i, j, src, dst, protocol, port);
  }

  lemma SameRouteEdge(plan: Plan, plan': Plan, m: Module, r: Route)
    requires plan'.planModules == plan.planModules && Ids(plan') == Ids(plan)
    requires forall id :: SamePorts(SurfacesOf(plan, id), SurfacesOf(plan', id))
    ensures RouteEdge(plan, m, r) == RouteEdge(plan', m, r)
  {
    if r.Route? && r.contractRef.Some? && ParseContractRef(r.contractRef.value).Some? {
      var (target, name) := ParseContractRef(r.contractRef.value).value;
      if target in plan.planModules && name in plan.planModules[target].provided {
        SameScope(BackendPort(plan.planModules[target].provided[name].port), SurfacesOf(plan, target),
                  SurfacesOf(plan', target));
      }
    }
  }

  /** From outside the release exactly the opened TCP ports of a module are reachable. */
  lemma OutsideReachIffOpening(
    plan: Plan, policies: seq<Policy>, keys: seq<(string, string)>, j: nat,
    src: Endpoint, dst: Endpoint, protocol: string, port: int)
    requires ReachPremises(plan, policies, keys) && j < |plan.modules|
    requires src.pod.None? && IsModulePod(plan.modules[j].id, dst)
    ensures IngressAllowed(policies, src, dst, protocol, port) <==>
            && protocol == "TCP"
            && exists s :: s in SurfacesOf(plan, plan.modules[j].id) && s.kind in {"NodePort", "LoadBalancer"} &&
                           port in s.ports
  {
    var id := plan.modules[j].id;
    OnlyOwnPolicy(plan, policies, keys, dst, j);
    assert IsModulePolicy(plan, id, policies[j]) && policies[j] in policies && Applies(policies[j], dst);
    assert forall s: Surface :: port in s.ports ==> (IsOpening(s) <==> s.kind in {"NodePort", "LoadBalancer"});
    if IngressAllowed(policies, src, dst, protocol, port) {
      var p, rule :| p in policies && Applies(p, dst) && p.ingress.Some? && rule in p.ingress.value &&
        RuleAdmits(rule, src, protocol, port);
      assert IsIngressRule(plan, id, rule);
      assert !(exists peer :: peer in rule.peers && PeerMatches(peer, src)) && rule.peers == {} by {
        PodRulesNeedPods(plan, id, rule, src);
      }
      var s :| s in SurfacesOf(plan, id) && IsOpening(s) && rule == Rule({}, TcpPorts(s.ports));
      TcpPortsNonEmpty(s.ports);
    }
    if s :| protocol == "TCP" && s in SurfacesOf(plan, id) && IsOpening(s) && port in s.ports {
      var rule := Rule({}, TcpPorts(s.ports));
      assert PortRule("TCP", port) in rule.ports && RuleAdmits(rule, src, protocol, port);
      assert IsIngressRule(plan, id, rule);
      assert rule in policies[j].ingress.value;
    }
  }

  lemma PodRulesNeedPods(plan: Plan, id: string, rule: Rule, src: Endpoint)
    requires NoCustomRules(plan) && src.pod.None? && IsIngressRule(plan, id, rule)
    ensures !(exists peer :: peer in rule.peers && PeerMatches(peer, src))
    ensures || rule.peers != {}
            || exists s :: s in SurfacesOf(plan, id) && IsOpening(s) && rule == Rule({}, TcpPorts(s.ports))
  {
    if rule == PeerRule(id, None) {
      assert Pods(ModuleSelector(id)) in rule.peers;
    } else if ForEdgeInto(DerivedEdges(plan), id, rule) {
      var e :| e in DerivedEdges(plan) && e.dst == id && rule == PeerRule(e.src, e.ports);
      assert Pods(ModuleSelector(e.src)) in rule.peers;
    }
  }

  // ---------------------------------------------------------------------------
  // Declared egress to addresses outside the cluster
  // ---------------------------------------------------------------------------

  ghost predicate IsWorkloadPod(id: string, name: string, e: Endpoint) {
    e.pod.Some? && e.pod.value.inRelease && exists release :: e.pod.value.labels == PodLabels(release, id, name)
  }

  lemma SelectorPicksWorkload(key: (string, string), id: string, name: string, e: Endpoint)
    requires IsWorkloadPod(id, name, e)
    ensures IsModulePod(id, e)
    ensures Selects(WorkloadSelector(key.0, ServiceName(key.0, key.1)), e.pod.value.labels) <==>
            key.0 == id && ServiceName(key.0, key.1) == name
  {
    var release :| e.pod.value.labels == PodLabels(release, id, name);
    var selector := WorkloadSelector(key.0, ServiceName(key.0, key.1));
    assert ModuleId in selector && WorkloadName in selector && Instance in selector;
  }

  /** Entries as validation leaves them: a port list, where there is one, is not empty. */
  ghost predicate EntriesSound(plan: Plan) {
    && (forall id, entry :: entry in Lookup(plan.externalEgress, id) ==> entry.ports != Some({}))
    && (forall key, entry :: entry in Lookup(plan.workloadEgress, key) ==> entry.ports != Some({}))
  }

  /** An entry declared for a pod's module, or for the very workload it belongs to. */
  ghost predicate DeclaredFor(plan: Plan, id: string, name: string, entry: Entry) {
    || entry in Lookup(plan.externalEgress, id)
    || exists workload :: ServiceName(id, workload) == name && entry in Lookup(plan.workloadEgress, (id, workload))
  }

  lemma DeclaredEgressAdmits(
    plan: Plan, policies: seq<Policy>, keys: seq<(string, string)>, i: nat, name: string,
    src: Endpoint, dst: Endpoint, port: int, entry: Entry)
    requires IsPolicySet(plan, policies, keys) && EntriesSound(plan) && i < |plan.modules|
    requires IsWorkloadPod(plan.modules[i].id, name, src)
    requires DeclaredFor(plan, plan.modules[i].id, name, entry) && EntryCovers(entry, Some(dst.ip), Some(port))
    ensures EgressAllowed(policies, src, dst, "TCP", port)
  {
    var id := plan.modules[i].id;
    RuleAdmitsIffCovered(entry, dst, port);
    SelectorPicksWorkload(("", ""), id, name, src);
    SelectorPicksModule(id, id, src);
    if entry in Lookup(plan.externalEgress, id) {
      assert IsModulePolicy(plan, id, policies[i]) && policies[i] in policies;
      assert EgressRule(entry) in policies[i].egress.value;
    } else {
      var workload :| ServiceName(id, workload) == name && entry in Lookup(plan.workloadEgress, (id, workload));
      var key := (id, workload);
      assert key in keys;
      var j :| 0 <= j < |keys| && keys[j] == key;
      var p := policies[|plan.modules| + j];
      SelectorPicksWorkload(key, id, name, src);
      assert IsWorkloadPolicy(plan, key, p) && p in policies;
      assert EgressRule(entry) in p.egress.value;
    }
  }

  lemma ExternalEgressIsDeclared(
    plan: Plan, id: string, name: string, p: Policy, rule: Rule, src: Endpoint, dst: Endpoint, port: int,
    isModule: bool, key: (string, string))
    requires NoCustomRules(plan) && EntriesSound(plan) && dst.pod.None? && IsWorkloadPod(id, name, src) &&
             Applies(p, src)
    requires if isModule then IsModulePolicy(plan, key.0, p) else IsWorkloadPolicy(plan, key, p)
    requires rule in p.egress.value && RuleAdmits(rule, dst, "TCP", port)
    ensures exists entry :: DeclaredFor(plan, id, name, entry) && EntryCovers(entry, Some(dst.ip), Some(port))
  {
    SelectorPicksWorkload(key, id, name, src);
    SelectorPicksModule(key.0, id, src);
    if isModule {
      assert IsEgressRule(plan, id, rule);
      if entry :| entry in Lookup(plan.externalEgress, id) && rule == EgressRule(entry) {
        RuleAdmitsIffCovered(entry, dst, port);
        assert DeclaredFor(plan, id, name, entry);
      } else {
        PodEgressNeedsPods(plan, id, rule, dst);
      }
    } else {
      var entry :| entry in Lookup(plan.workloadEgress, key) && rule == EgressRule(entry);
      RuleAdmitsIffCovered(entry, dst, port);
      assert DeclaredFor(plan, id, name, entry);
    }
  }

  lemma PodEgressNeedsPods(plan: Plan, id: string, rule: Rule, dst: Endpoint)
    requires NoCustomRules(plan) && dst.pod.None? && IsEgressRule(plan, id, rule)
    requires !exists entry :: entry in Lookup(plan.externalEgress, id) && rule == EgressRule(entry)
    ensures rule.peers != {} && forall peer :: peer in rule.peers ==> !PeerMatches(peer, dst)
  {
    if rule == PeerRule(id, None) {
      assert Pods(ModuleSelector(id)) in rule.peers;
    } else if rule == DNS_RULE {
      assert PodsIn(map[NamespaceName := "kube-system"], map[K8sApp := "kube-dns"]) in rule.peers;
    } else {
      var e :| e in DerivedEdges(plan) && e.src == id && rule == PeerRule(e.dst, e.ports);
      assert Pods(ModuleSelector(e.dst)) in rule.peers;
    }
  }

  /** A pod reaches an outside address over TCP exactly through an entry declared for it. */
  lemma ExternalReachIffDeclared(
    plan: Plan, policies: seq<Policy>, keys: seq<(string, string)>, i: nat, name: string,
    src: Endpoint, dst: Endpoint, port: int)
    requires IsPolicySet(plan, policies, keys) && NoCustomRules(plan) && EntriesSound(plan) && i < |plan.modules|
    requires IsWorkloadPod(plan.modules[i].id, name, src) && dst.pod.None?
    ensures EgressAllowed(policies, src, dst, "TCP", port) <==>
            exists entry :: DeclaredFor(plan, plan.modules[i].id, name, entry) &&
              EntryCovers(entry, Some(dst.ip), Some(port))
  {
    var id := plan.modules[i].id;
    if EgressAllowed(policies, src, dst, "TCP", port) {
      SelectorPicksWorkload(("", ""), id, name, src);
      SelectorPicksModule(id, id, src);
      assert IsModulePolicy(plan, id, policies[i]) && policies[i] in policies && Applies(policies[i], src);
      var p, rule :| p in policies && Applies(p, src) && p.egress.Some? && rule in p.egress.value &&
        RuleAdmits(rule, dst, "TCP", port);
      var k :| 0 <= k < |policies| && policies[k] == p;
      if k < |plan.modules| {
        ExternalEgressIsDeclared(plan, id, name, p, rule, src, dst, port, true, (plan.modules[k].id, ""));
      } else {
        assert p == policies[|plan.modules| + (k - |plan.modules|)];
        ExternalEgressIsDeclared(plan, id, name, p, rule, src, dst, port, false, keys[k - |plan.modules|]);
      }
    }
    if entry :| DeclaredFor(plan, id, name, entry) && EntryCovers(entry, Some(dst.ip), Some(port)) {
      DeclaredEgressAdmits(plan, policies, keys, i, name, src, dst, port, entry);
    }
  }

  // ---------------------------------------------------------------------------
  // Custom rules
  // ---------------------------------------------------------------------------

  /** Into a pod goes what its module's own rules admit. */
  lemma IngressIff(
    plan: Plan, policies: seq<Policy>, keys: seq<(string, string)>, k: nat,
    src: Endpoint, dst: Endpoint, protocol: string, port: int)
    requires DistinctIds(plan) && IsPolicySet(plan, policies, keys)
    requires k < |plan.modules| && IsModulePod(plan.modules[k].id, dst)
    ensures IngressAllowed(policies, src, dst, protocol, port) <==>
            exists rule :: IsIngressRule(plan, plan.modules[k].id, rule) && RuleAdmits(rule, src, protocol, port)
  {
    var id := plan.modules[k].id;
    assert IsModulePolicy(plan, id, policies[k]) && policies[k] in policies;
    SelectorPicksModule(id, id, dst);
    assert Applies(policies[k], dst);
    forall i | 0 <= i < |policies| && Applies(policies[i], dst) ensures policies[i].ingress.Some? ==> i == k {
      if i < |plan.modules| {
        SelectorPicksModule(plan.modules[i].id, id, dst);
        assert IsModulePolicy(plan, plan.modules[i].id, policies[i]);
      } else {
        assert IsWorkloadPolicy(plan, keys[i - |plan.modules|], policies[|plan.modules| + (i - |plan.modules|)]);
      }
    }
  }

  /** A rule an entry declared for the workload itself is rendered as. */
  ghost predicate IsOwnEntryRule(plan: Plan, id: string, name: string, rule: Rule) {
    exists workload, entry ::
      ServiceName(id, workload) == name && entry in Lookup(plan.workloadEgress, (id, workload)) &&
      rule == EgressRule(entry)
  }

  lemma OwnEntryRuleHeld(
    plan: Plan, policies: seq<Policy>, keys: seq<(string, string)>, id: string, name: string, e: Endpoint, rule: Rule)
    requires IsPolicySet(plan, policies, keys) && IsWorkloadPod(id, name, e) && IsOwnEntryRule(plan, id, name, rule)
    ensures exists p :: p in policies && Applies(p, e) && p.egress.Some? && rule in p.egress.value
  {
    var workload, entry :| ServiceName(id, workload) == name && entry in Lookup(plan.workloadEgress, (id, workload)) &&
                           rule == EgressRule(entry);
    var key := (id, workload);
    assert key in keys;
    var j :| 0 <= j < |keys| && keys[j] == key;
    var p := policies[|plan.modules| + j];
    SelectorPicksWorkload(key, id, name, e);
    assert IsWorkloadPolicy(plan, key, p) && p in policies;
  }

  lemma HeldRuleIsOwn(
    plan: Plan, policies: seq<Policy>, keys: seq<(string, string)>, k: nat, name: string, e: Endpoint, i: nat,
    rule: Rule)
    requires DistinctIds(plan) && IsPolicySet(plan, policies, keys) && k < |plan.modules|
    requires IsWorkloadPod(plan.modules[k].id, name, e)
    requires i < |policies| && Applies(policies[i], e) && policies[i].egress.Some? && rule in policies[i].egress.value
    ensures IsEgressRule(plan, plan.modules[k].id, rule) || IsOwnEntryRule(plan, plan.modules[k].id, name, rule)
  {
    var id := plan.modules[k].id;
    SelectorPicksWorkload(("", ""), id, name, e);
    if i < |plan.modules| {
      SelectorPicksModule(plan.modules[i].id, id, e);
      assert IsModulePolicy(plan, plan.modules[i].id, policies[i]);
    } else {
      var key := keys[i - |plan.modules|];
      assert IsWorkloadPolicy(plan, key, policies[|plan.modules| + (i - |plan.modules|)]);
      SelectorPicksWorkload(key, id, name, e);
    }
  }

  /** Out of a pod goes what the rules of its module and the entries of its workload admit. */
  lemma EgressIff(
    plan: Plan, policies: seq<Policy>, keys: seq<(string, string)>, k: nat, name: string,
    src: Endpoint, dst: Endpoint, protocol: string, port: int)
    requires DistinctIds(plan) && IsPolicySet(plan, policies, keys)
    requires k < |plan.modules| && IsWorkloadPod(plan.modules[k].id, name, src)
    ensures EgressAllowed(policies, src, dst, protocol, port) <==>
            exists rule :: (IsEgressRule(plan, plan.modules[k].id, rule) ||
                            IsOwnEntryRule(plan, plan.modules[k].id, name, rule)) &&
                           RuleAdmits(rule, dst, protocol, port)
  {
    var id := plan.modules[k].id;
    SelectorPicksWorkload(("", ""), id, name, src);
    SelectorPicksModule(id, id, src);
    assert IsModulePolicy(plan, id, policies[k]) && policies[k] in policies && Applies(policies[k], src);
    forall p, rule | p in policies && Applies(p, src) && p.egress.Some? && rule in p.egress.value
      ensures IsEgressRule(plan, id, rule) || IsOwnEntryRule(plan, id, name, rule)
    {
      var i :| 0 <= i < |policies| && policies[i] == p;
      HeldRuleIsOwn(plan, policies, keys, k, name, src, i, rule);
    }
    if rule :| IsOwnEntryRule(plan, id, name, rule) && RuleAdmits(rule, dst, protocol, port) {
      OwnEntryRuleHeld(plan, policies, keys, id, name, src, rule);
    }
  }

  /** The plan with its custom rules left out. */
  function WithoutCustom(plan: Plan): Plan {
    plan.(customIngress := map[], customEgress := map[])
  }

  lemma CustomRulesDeriveNoEdge(plan: Plan)
    ensures DerivedEdges(plan) == DerivedEdges(WithoutCustom(plan))
  {
    var plan' := WithoutCustom(plan);
    assert Ids(plan) == Ids(plan');
    forall m, c ensures BindingEdge(plan, m, c) == BindingEdge(plan', m, c) {}
    forall m, r ensures RouteEdge(plan, m, r) == RouteEdge(plan', m, r) {}
    forall e ensures e in DerivedEdges(plan) <==> e in DerivedEdges(plan') {
      DerivedIffJustified(plan, e);
      DerivedIffJustified(plan', e);
    }
  }

  lemma SameRulesButCustom(plan: Plan, id: string, name: string)
    ensures var plan' := WithoutCustom(plan);
            && (forall rule :: IsIngressRule(plan, id, rule) <==>
                  IsIngressRule(plan', id, rule) || rule in Lookup(plan.customIngress, id))
            && (forall rule :: IsEgressRule(plan, id, rule) <==>
                  IsEgressRule(plan', id, rule) || rule in Lookup(plan.customEgress, id))
            && (forall rule :: IsOwnEntryRule(plan, id, name, rule) <==> IsOwnEntryRule(plan', id, name, rule))
  {
    CustomRulesDeriveNoEdge(plan);
  }

  /** A module's custom rules admit what they say for its pods, and change nothing else. */
  lemma CustomRulesAdd(
    plan: Plan, policies: seq<Policy>, keys: seq<(string, string)>,
    policies': seq<Policy>, keys': seq<(string, string)>, k: nat, name: string, pod: Endpoint, other: Endpoint,
    protocol: string, port: int)
    requires DistinctIds(plan) && IsPolicySet(plan, policies, keys)
    requires IsPolicySet(WithoutCustom(plan), policies', keys')
    requires k < |plan.modules| && IsWorkloadPod(plan.modules[k].id, name, pod)
    ensures IngressAllowed(policies, other, pod, protocol, port) <==>
            || IngressAllowed(policies', other, pod, protocol, port)
            || exists rule :: rule in Lookup(plan.customIngress, plan.modules[k].id) &&
                              RuleAdmits(rule, other, protocol, port)
    ensures EgressAllowed(policies, pod, other, protocol, port) <==>
            || EgressAllowed(policies', pod, other, protocol, port)
            || exists rule :: rule in Lookup(plan.customEgress, plan.modules[k].id) &&
                              RuleAdmits(rule, other, protocol, port)
  {
    var id, plan' := plan.modules[k].id, WithoutCustom(plan);
    SameRulesButCustom(plan, id, name);
    SelectorPicksWorkload(("", ""), id, name, pod);
    IngressIff(plan, policies, keys, k, other, pod, protocol, port);
    IngressIff(plan', policies', keys', k, other, pod, protocol, port);
    EgressIff(plan, policies, keys, k, name, pod, other, protocol, port);
    EgressIff(plan', policies', keys', k, name, pod, other, protocol, port);
  }
}
