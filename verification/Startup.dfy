// The start-up graph of a rendered Compose file (cli/renderer.py): module-local
// depends_on entries, the cross-module edges added to them, and start-up itself.
module Startup {
  import opened Document
  import opened Naming
  import Graph

  datatype Condition = Started | Healthy | CompletedSuccessfully

  datatype Healthcheck = NoHealthcheck | Healthcheck(disabled: bool, hasTest: bool)

  datatype Wait = Wait(on: string, condition: Condition)

  /** `depends_on` as a module template writes it: missing, a list, or a mapping. */
  datatype Declared = Undeclared | Names(names: seq<string>) | Conditions(waits: seq<Wait>)

  datatype Template = Template(dependsOn: Declared, healthcheck: Healthcheck, gated: bool)

  datatype Module = Module(id: string, dependsOn: seq<string>, templates: map<string, Template>)

  /** A rendered service; `gated` when it carries Compose profiles. */
  datatype Service = Service(dependsOn: Option<map<string, Condition>>, healthcheck: Healthcheck, gated: bool)

  type Services = map<string, Service>

  // ---------------------------------------------------------------------------
  // Module-local dependencies
  // ---------------------------------------------------------------------------

  function Waits(d: Declared): seq<Wait> {
    match d
    case Undeclared => []
    case Names(names) => seq(|names|, i requires 0 <= i < |names| => Wait(names[i], Started))
    case Conditions(waits) => waits
  }

  function Rewritten(moduleId: string, waits: seq<Wait>): map<string, Condition> {
    if waits == [] then map[]
    else
      var last := waits[|waits| - 1];
      Rewritten(moduleId, waits[..|waits| - 1])[ServiceName(moduleId, last.on) := last.condition]
  }

  function RewriteDependsOn(moduleId: string, t: Template): Service {
    var dependsOn := if t.dependsOn == Undeclared then None else Some(Rewritten(moduleId, Waits(t.dependsOn)));
    Service(dependsOn, t.healthcheck, t.gated)
  }

  lemma {:induction false} RewrittenWaits(moduleId: string, waits: seq<Wait>, s: string)
    ensures s in Rewritten(moduleId, waits) ==>
              exists w :: w in waits && s == ServiceName(moduleId, w.on) && Rewritten(moduleId, waits)[s] == w.condition
    ensures (exists w :: w in waits && s == ServiceName(moduleId, w.on)) ==> s in Rewritten(moduleId, waits)
  {
    if waits == [] {
    } else {
      RewrittenWaits(moduleId, waits[..|waits| - 1], s);
    }
  }

  /** A rendered service keeps its template's healthcheck and gate, and its waits: in a list each is for a start. */
  lemma RenderedService(moduleId: string, t: Template, s: string)
    ensures var r := RewriteDependsOn(moduleId, t);
            && r.healthcheck == t.healthcheck && r.gated == t.gated
            && match t.dependsOn
               case Undeclared => r.dependsOn == None
               case Names(names) =>
                 && r.dependsOn.Some?
                 && (s in r.dependsOn.value <==> exists n :: n in names && s == ServiceName(moduleId, n))
                 && (s in r.dependsOn.value ==> r.dependsOn.value[s] == Started)
               case Conditions(waits) =>
                 && r.dependsOn.Some?
                 && (s in r.dependsOn.value <==> exists w :: w in waits && s == ServiceName(moduleId, w.on))
  {
    RewrittenWaits(moduleId, Waits(t.dependsOn), s);
    if t.dependsOn.Names? {
      var names, waits := t.dependsOn.names, Waits(t.dependsOn);
      forall n | n in names ensures Wait(n, Started) in waits {
        var i :| 0 <= i < |names| && names[i] == n;
        assert waits[i] == Wait(n, Started);
      }
    }
  }

  /** Of waits for one service the last one says the condition. */
  lemma {:induction false} LastConditionCounts(moduleId: string, waits: seq<Wait>, i: nat)
    requires i < |waits|
    requires forall j :: i < j < |waits| ==> ServiceName(moduleId, waits[j].on) != ServiceName(moduleId, waits[i].on)
    ensures var s := ServiceName(moduleId, waits[i].on);
            s in Rewritten(moduleId, waits) && Rewritten(moduleId, waits)[s] == waits[i].condition
  {
    if i < |waits| - 1 { LastConditionCounts(moduleId, waits[..|waits| - 1], i); }
  }

  // ---------------------------------------------------------------------------
  // Cross-module dependencies
  // ---------------------------------------------------------------------------

  function DepsOf(s: Service): map<string, Condition> {
    if s.dependsOn.Some? then s.dependsOn.value else map[]
  }

  /** A service that can become healthy. */
  predicate ActiveHealthcheck(s: Service) {
    s.healthcheck.Healthcheck? && !s.healthcheck.disabled && s.healthcheck.hasTest
  }

  /** Only an ungated service that can become healthy is awaited across modules. */
  predicate Awaitable(services: Services, t: string) {
    t in services && ActiveHealthcheck(services[t]) && !services[t].gated
  }

  function NamesOf(names: map<string, seq<string>>, id: string): seq<string> {
    if id in names then names[id] else []
  }

  function HealthyWaits(targets: set<string>): map<string, Condition> {
    map t | t in targets :: Healthy
  }

  function AddWaits(s: Service, targets: set<string>): Service {
    if targets == {} then s else s.(dependsOn := Some(DepsOf(s) + HealthyWaits(targets)))
  }

  function AwaitableAmong(services: Services, names: seq<string>): set<string> {
    set t | t in names && Awaitable(services, t)
  }

  /** What a module depending on `dependsOn` makes its services wait for. */
  function Targets(services: Services, names: map<string, seq<string>>, dependsOn: seq<string>): set<string> {
    if dependsOn == [] then {}
    else
      Targets(services, names, dependsOn[..|dependsOn| - 1]) +
      AwaitableAmong(services, NamesOf(names, dependsOn[|dependsOn| - 1]))
  }

  function LinkModule(services: Services, names: map<string, seq<string>>, m: Module): Services {
    map s | s in services ::
      if s in NamesOf(names, m.id) then AddWaits(services[s], Targets(services, names, m.dependsOn)) else services[s]
  }

  function LinkAll(services: Services, names: map<string, seq<string>>, modules: seq<Module>): Services {
    if modules == [] then services
    else LinkModule(LinkAll(services, names, modules[..|modules| - 1]), names, modules[|modules| - 1])
  }

  lemma AddOneWait(s: Service, t: string)
    ensures AddWaits(s, {t}) == s.(dependsOn := Some(DepsOf(s)[t := Healthy]))
  {
    assert DepsOf(AddWaits(s, {t})) == DepsOf(s)[t := Healthy];
  }

  lemma AddWaitsTwice(s: Service, x: set<string>, y: set<string>)
    ensures AddWaits(AddWaits(s, x), y) == AddWaits(s, x + y)
  {
    if x == {} {
      assert x + y == y;
    } else if y == {} {
      assert x + y == x;
    } else {
      var deps := DepsOf(s);
      assert deps + HealthyWaits(x) + HealthyWaits(y) == deps + HealthyWaits(x + y);
    }
  }

  /** Linking adds waits only, so it never changes which services can be awaited. */
  ghost predicate SameChecks(a: Services, b: Services) {
    a.Keys == b.Keys && forall s :: s in a ==> a[s].healthcheck == b[s].healthcheck && a[s].gated == b[s].gated
  }

  lemma {:induction false} SameTargets(
    a: Services, b: Services, names: map<string, seq<string>>, dependsOn: seq<string>)
    requires SameChecks(a, b)
    ensures Targets(a, names, dependsOn) == Targets(b, names, dependsOn)
  {
    if dependsOn == [] {
    } else {
      SameTargets(a, b, names, dependsOn[..|dependsOn| - 1]);
      var last := NamesOf(names, dependsOn[|dependsOn| - 1]);
      assert AwaitableAmong(a, last) == AwaitableAmong(b, last);
    }
  }

  class ComposeFile {
    var services: Services

    constructor (services: Services)
      ensures this.services == services
    {
      this.services := services;
    }

    method AddCrossModuleDependencies(modules: seq<Module>, names: map<string, seq<string>>)
      modifies this
      ensures services == LinkAll(old(services), names, modules)
    {
      for i := 0 to |modules|
        invariant services == LinkAll(old(services), names, modules[..i])
      {
        assert modules[..i + 1][..i] == modules[..i];
        LinkOneModule(modules[i], names);
      }
      assert modules[..|modules|] == modules;
    }

    method LinkOneModule(m: Module, names: map<string, seq<string>>)
      modifies this
      ensures services == LinkModule(old(services), names, m)
    {
      var own := NamesOf(names, m.id);
      ghost var before := services;
      ghost var targets := Targets(before, names, m.dependsOn);
      for i := 0 to |own|
        invariant SameChecks(before, services)
        invariant forall s :: s in before ==>
                    services[s] == if s in own[..i] then AddWaits(before[s], targets) else before[s]
      {
        assert own[..i + 1] == own[..i] + [own[i]];
        if own[i] in services {
          SameTargets(before, services, names, m.dependsOn);
          AddWaitsTwice(before[own[i]], targets, targets);
          assert targets + targets == targets;
          var linked := LinkService(services[own[i]], m.dependsOn, names);
          services := services[own[i] := linked];
        }
      }
      assert own[..|own|] == own;
      assert services == LinkModule(before, names, m);
    }

    /** The waits one service gains from the modules its module depends on. */
    method LinkService(s: Service, dependsOn: seq<string>, names: map<string, seq<string>>) returns (linked: Service)
      ensures linked == AddWaits(s, Targets(services, names, dependsOn))
    {
      linked := s;
      for i := 0 to |dependsOn|
        invariant linked == AddWaits(s, Targets(services, names, dependsOn[..i]))
      {
        assert dependsOn[..i + 1][..i] == dependsOn[..i];
        linked := LinkTo(linked, NamesOf(names, dependsOn[i]), s, Targets(services, names, dependsOn[..i]));
      }
      assert dependsOn[..|dependsOn|] == dependsOn;
    }

    /** The waits it gains from the services of one module. */
    method LinkTo(start: Service, targets: seq<string>, ghost s: Service, ghost soFar: set<string>)
      returns (linked: Service)
      requires start == AddWaits(s, soFar)
      ensures linked == AddWaits(s, soFar + AwaitableAmong(services, targets))
    {
      linked := start;
      assert soFar + AwaitableAmong(services, targets[..0]) == soFar;
      for j := 0 to |targets|
        invariant linked == AddWaits(s, soFar + AwaitableAmong(services, targets[..j]))
      {
        var t := targets[j];
        ghost var done := soFar + AwaitableAmong(services, targets[..j]);
        assert targets[..j + 1] == targets[..j] + [t];
        if Awaitable(services, t) {
          AddWaitsTwice(s, done, {t});
          assert done + {t} == soFar + AwaitableAmong(services, targets[..j + 1]);
          linked := linked.(dependsOn := Some(DepsOf(linked)[t := Healthy]));
          AddOneWait(AddWaits(s, done), t);
        } else {
          assert done == soFar + AwaitableAmong(services, targets[..j + 1]);
        }
      }
      assert targets[..|targets|] == targets;
    }
  }

  // ---------------------------------------------------------------------------
  // The rendered graph has no cycle
  // ---------------------------------------------------------------------------

  /** A service's place: the module it was rendered from and its name there. */
  datatype Place = Place(m: Module, name: string)

  ghost predicate IsPlace(modules: seq<Module>, p: Place) {
    p.m in modules && p.name in p.m.templates
  }

  function Placed(p: Place): string {
    ServiceName(p.m.id, p.name)
  }

  /**
   What rendering the modules one by one leaves behind: every template under its
   service name, no other service, and the names listed per module id.
   */
  ghost predicate RendersTo(modules: seq<Module>, services: Services, names: map<string, seq<string>>) {
    && (forall p :: IsPlace(modules, p) ==>
        Placed(p) in services && services[Placed(p)] == RewriteDependsOn(p.m.id, p.m.templates[p.name]))
    && (forall s :: s in services ==> exists p :: IsPlace(modules, p) && Placed(p) == s)
    && (forall id, s :: s in NamesOf(names, id) ==> exists p :: IsPlace(modules, p) && p.m.id == id && Placed(p) == s)
  }

  ghost predicate NamesDistinct(modules: seq<Module>) {
    && (forall p, q :: IsPlace(modules, p) && IsPlace(modules, q) && Placed(p) == Placed(q) ==> p == q)
    && (forall m, n :: m in modules && n in modules && m.id == n.id ==> m == n)
  }

  ghost function ModuleGraph(modules: seq<Module>): Graph.Graph
    requires NamesDistinct(modules)
  {
    Graph.Graph(set m | m in modules :: m.id, map m | m in modules :: m.id := m.dependsOn)
  }

  /** The dependencies a module declares among its own services. */
  ghost function OwnGraph(m: Module): Graph.Graph {
    Graph.Graph(m.templates.Keys, map n | n in m.templates :: OwnDeps(m.templates[n]))
  }

  function OwnDeps(t: Template): seq<string> {
    var waits := Waits(t.dependsOn);
    seq(|waits|, i requires 0 <= i < |waits| => waits[i].on)
  }

  /** Each module's own dependencies name its own services and do not cycle. */
  ghost predicate OwnGraphsSound(modules: seq<Module>) {
    forall m :: m in modules ==>
      && !Graph.Cyclic(OwnGraph(m))
      && forall n, d :: n in m.templates && d in OwnDeps(m.templates[n]) ==> d in m.templates
  }

  ghost predicate DependsOn(services: Services, s: string, t: string) {
    s in services && t in DepsOf(services[s])
  }

  lemma {:induction false} TargetsAre(
    services: Services, names: map<string, seq<string>>, dependsOn: seq<string>, t: string)
    ensures t in Targets(services, names, dependsOn) <==>
            Awaitable(services, t) && exists d :: d in dependsOn && t in NamesOf(names, d)
  {
    if dependsOn == [] {
    } else {
      TargetsAre(services, names, dependsOn[..|dependsOn| - 1], t);
    }
  }

  /** A wait one module adds to its services. */
  ghost predicate LinkedBy(services: Services, names: map<string, seq<string>>, m: Module, s: string, t: string) {
    && s in NamesOf(names, m.id) && Awaitable(services, t)
    && exists d :: d in m.dependsOn && t in NamesOf(names, d)
  }

  /** A wait added across modules. */
  ghost predicate CrossEdge(
    services: Services, names: map<string, seq<string>>, modules: seq<Module>, s: string, t: string)
  {
    exists m :: m in modules && LinkedBy(services, names, m, s, t)
  }

  lemma LinkModuleDependencies(services: Services, names: map<string, seq<string>>, m: Module, s: string, t: string)
    requires s in services
    ensures SameChecks(services, LinkModule(services, names, m))
    ensures var after := LinkModule(services, names, m);
            && (t in DepsOf(after[s]) <==> t in DepsOf(services[s]) || LinkedBy(services, names, m, s, t))
            && (t in DepsOf(after[s]) ==>
                  DepsOf(after[s])[t] ==
                  if LinkedBy(services, names, m, s, t) then Healthy else DepsOf(services[s])[t])
  {
    TargetsAre(services, names, m.dependsOn, t);
  }

  /** Linking adds exactly the cross edges, each a wait for a healthy service. */
  lemma {:induction false} LinkedDependencies(
    services: Services, names: map<string, seq<string>>, modules: seq<Module>, s: string, t: string)
    requires s in services
    ensures SameChecks(services, LinkAll(services, names, modules))
    ensures var linked := LinkAll(services, names, modules);
            && (t in DepsOf(linked[s]) <==> t in DepsOf(services[s]) || CrossEdge(services, names, modules, s, t))
            && (t in DepsOf(linked[s]) ==>
                  DepsOf(linked[s])[t] ==
                  if CrossEdge(services, names, modules, s, t) then Healthy else DepsOf(services[s])[t])
  {
    if modules == [] {
    } else {
      var init, last := modules[..|modules| - 1], modules[|modules| - 1];
      var before := LinkAll(services, names, init);
      LinkedDependencies(services, names, init, s, t);
      LinkModuleDependencies(before, names, last, s, t);
      assert LinkedBy(services, names, last, s, t) == LinkedBy(before, names, last, s, t);
      CrossEdgeSplits(services, names, init, last, s, t);
      assert modules == init + [last];
    }
  }

  /**
   Told from the services themselves: linking makes `s` of module `m` wait for the health
   of each service of the modules `m` depends on that has a test in an enabled healthcheck
   and no Compose profile, and adds or changes nothing else.
   */
  lemma {:induction false} LinkedWaitIff(
    services: Services, names: map<string, seq<string>>, modules: seq<Module>, s: string, t: string)
    requires s in services
    ensures s in LinkAll(services, names, modules)
    ensures var linked, before := LinkAll(services, names, modules)[s].dependsOn, services[s].dependsOn;
            var added := exists m, d ::
                           && m in modules && m.id in names && s in names[m.id]
                           && d in m.dependsOn && d in names && t in names[d]
                           && t in services && services[t].healthcheck == Healthcheck(false, true) &&
                           !services[t].gated;
            && (linked.Some? && t in linked.value <==> added || (before.Some? && t in before.value))
            && (added ==> linked.value[t] == Healthy)
            && (!added && before.Some? && t in before.value ==> linked.value[t] == before.value[t])
  {
    LinkedDependencies(services, names, modules, s, t);
    if m :| m in modules && LinkedBy(services, names, m, s, t) {
      var d :| d in m.dependsOn && t in NamesOf(names, d);
      assert m.id in names && s in names[m.id] && d in names && t in names[d];
    }
    forall m, d | m in modules && m.id in names && s in names[m.id] && d in m.dependsOn && d in names &&
      t in names[d] && Awaitable(services, t)
      ensures CrossEdge(services, names, modules, s, t)
    {
      assert LinkedBy(services, names, m, s, t);
    }
  }

  lemma CrossEdgeSplits(
    services: Services, names: map<string, seq<string>>, init: seq<Module>, last: Module, s: string, t: string)
    ensures CrossEdge(services, names, init + [last], s, t) <==>
            CrossEdge(services, names, init, s, t) || LinkedBy(services, names, last, s, t)
  {
    assert last in init + [last];
  }

  ghost function Listed(s: set<string>): (q: seq<string>)
    ensures forall x :: x in q <==> x in s
  {
    if s == {} then [] else var x :| x in s; [x] + Listed(s - {x})
  }

  /** The start-up graph: an edge from a service to each one it waits for. */
  ghost function ServiceGraph(services: Services): Graph.Graph {
    Graph.Graph(services.Keys, map s | s in services :: Listed(DepsOf(services[s]).Keys))
  }

  ghost function PlaceOf(modules: seq<Module>, s: string): (p: Place)
    requires exists p :: IsPlace(modules, p) && Placed(p) == s
    ensures IsPlace(modules, p) && Placed(p) == s
  {
    var p :| IsPlace(modules, p) && Placed(p) == s; p
  }

  ghost function OrderOf(g: Graph.Graph): (order: seq<string>)
    requires !Graph.Cyclic(g)
    ensures Graph.TopologicalOrder(g, order)
  {
    Graph.AcyclicIffOrdered(g);
    var order :| Graph.TopologicalOrder(g, order); order
  }

  function IndexOf(order: seq<string>, a: string): (i: nat)
    requires a in order
    ensures i < |order| && order[i] == a
  {
    if order[0] == a then 0 else 1 + IndexOf(order[1..], a)
  }

  /** How late a node comes in the order of its graph. */
  ghost function RankIn(g: Graph.Graph, a: string): nat {
    if !Graph.Cyclic(g) && a in g.ids then IndexOf(OrderOf(g), a) else 0
  }

  lemma EdgeDescends(g: Graph.Graph, a: string, b: string)
    requires !Graph.Cyclic(g) && Graph.Edge(g, a, b)
    ensures RankIn(g, b) < RankIn(g, a)
  {
    var order := OrderOf(g);
    var i := IndexOf(order, a);
    assert b in order[..i];
    var j :| 0 <= j < i && order[j] == b;
    assert order[IndexOf(order, b)] == order[j];
  }

  ghost predicate StartupHypotheses(modules: seq<Module>, services: Services, names: map<string, seq<string>>) {
    && NamesDistinct(modules) && RendersTo(modules, services, names) && OwnGraphsSound(modules)
    && !Graph.Cyclic(ModuleGraph(modules))
  }

  lemma OwnEdge(modules: seq<Module>, services: Services, names: map<string, seq<string>>, s: string, t: string)
    requires StartupHypotheses(modules, services, names) && DependsOn(services, s, t)
    ensures t in services && PlaceOf(modules, t).m == PlaceOf(modules, s).m
    ensures Graph.Edge(OwnGraph(PlaceOf(modules, s).m), PlaceOf(modules, s).name, PlaceOf(modules, t).name)
  {
    var p := PlaceOf(modules, s);
    var template := p.m.templates[p.name];
    RewrittenWaits(p.m.id, Waits(template.dependsOn), t);
    var w :| w in Waits(template.dependsOn) && t == ServiceName(p.m.id, w.on);
    var i :| 0 <= i < |Waits(template.dependsOn)| && Waits(template.dependsOn)[i] == w;
    assert OwnDeps(template)[i] == w.on;
    assert IsPlace(modules, Place(p.m, w.on)) && Placed(Place(p.m, w.on)) == t;
  }

  ghost predicate HasPlace(modules: seq<Module>, s: string) {
    exists p :: IsPlace(modules, p) && Placed(p) == s
  }

  lemma NamedPlace(modules: seq<Module>, services: Services, names: map<string, seq<string>>, id: string, s: string)
    requires NamesDistinct(modules) && RendersTo(modules, services, names) && s in NamesOf(names, id)
    ensures s in services && HasPlace(modules, s) && PlaceOf(modules, s).m.id == id
  {
    var p :| IsPlace(modules, p) && p.m.id == id && Placed(p) == s;
    assert p == PlaceOf(modules, s);
  }

  lemma ModuleEdge(modules: seq<Module>, m: Module, n: Module)
    requires NamesDistinct(modules) && m in modules && n in modules && n.id in m.dependsOn
    ensures Graph.Edge(ModuleGraph(modules), m.id, n.id)
  {
    assert ModuleGraph(modules).deps[m.id] == m.dependsOn;
  }

  lemma CrossModuleEdge(modules: seq<Module>, services: Services, names: map<string, seq<string>>, s: string, t: string)
    requires StartupHypotheses(modules, services, names) && CrossEdge(services, names, modules, s, t)
    ensures s in services && t in services && HasPlace(modules, s) && HasPlace(modules, t)
    ensures Graph.Edge(ModuleGraph(modules), PlaceOf(modules, s).m.id, PlaceOf(modules, t).m.id)
  {
    var m :| m in modules && LinkedBy(services, names, m, s, t);
    var d :| d in m.dependsOn && t in NamesOf(names, d);
    NamedPlace(modules, services, names, m.id, s);
    NamedPlace(modules, services, names, d, t);
    ModuleEdge(modules, m, PlaceOf(modules, t).m);
  }

  /** First by module, then by the order within the module. */
  ghost predicate Lower(modules: seq<Module>, s: string, t: string) {
    || ModuleRank(modules, t) < ModuleRank(modules, s)
    || (ModuleRank(modules, t) == ModuleRank(modules, s) && OwnRank(modules, t) < OwnRank(modules, s))
  }

  ghost function ModuleRank(modules: seq<Module>, s: string): nat {
    if NamesDistinct(modules) && HasPlace(modules, s) then RankIn(ModuleGraph(modules), PlaceOf(modules, s).m.id) else 0
  }

  ghost function OwnRank(modules: seq<Module>, s: string): nat {
    if HasPlace(modules, s) then RankIn(OwnGraph(PlaceOf(modules, s).m), PlaceOf(modules, s).name) else 0
  }

  lemma OwnEdgeLowersRank(
    modules: seq<Module>, services: Services, names: map<string, seq<string>>, s: string, t: string)
    requires StartupHypotheses(modules, services, names) && DependsOn(services, s, t)
    ensures Lower(modules, s, t)
  {
    OwnEdge(modules, services, names, s, t);
    assert HasPlace(modules, s) && HasPlace(modules, t);
    EdgeDescends(OwnGraph(PlaceOf(modules, s).m), PlaceOf(modules, s).name, PlaceOf(modules, t).name);
  }

  lemma CrossEdgeLowersRank(
    modules: seq<Module>, services: Services, names: map<string, seq<string>>, s: string, t: string)
    requires StartupHypotheses(modules, services, names) && CrossEdge(services, names, modules, s, t)
    ensures Lower(modules, s, t)
  {
    CrossModuleEdge(modules, services, names, s, t);
    assert HasPlace(modules, s) && HasPlace(modules, t);
    EdgeDescends(ModuleGraph(modules), PlaceOf(modules, s).m.id, PlaceOf(modules, t).m.id);
  }

  lemma {:induction false} LinkedEdgeLowersRank(
    modules: seq<Module>, services: Services, names: map<string, seq<string>>, s: string, t: string)
    requires StartupHypotheses(modules, services, names) && s in services
    requires s in LinkAll(services, names, modules) && t in DepsOf(LinkAll(services, names, modules)[s])
    ensures Lower(modules, s, t)
  {
    LinkedDependencies(services, names, modules, s, t);
    if CrossEdge(services, names, modules, s, t) {
      CrossEdgeLowersRank(modules, services, names, s, t);
    } else {
      OwnEdgeLowersRank(modules, services, names, s, t);
    }
  }

  /** Sound modules with an acyclic module graph render to an acyclic start-up graph. */
  lemma {:induction false} RenderedGraphAcyclic(
    modules: seq<Module>, services: Services, names: map<string, seq<string>>)
    requires StartupHypotheses(modules, services, names)
    ensures !Graph.Cyclic(ServiceGraph(LinkAll(services, names, modules)))
  {
    var linked := LinkAll(services, names, modules);
    LinkedKeys(services, names, modules);
    forall s, t | s in linked && t in DepsOf(linked[s]) ensures Lower(modules, s, t) {
      LinkedEdgeLowersRank(modules, services, names, s, t);
    }
    LowerEdgesAcyclic(modules, linked);
  }

  lemma LowerEdgesAcyclic(modules: seq<Module>, services: Services)
    requires forall s, t :: s in services && t in DepsOf(services[s]) ==> Lower(modules, s, t)
    ensures !Graph.Cyclic(ServiceGraph(services))
  {
    forall p | |p| >= 2 && Graph.Walk(ServiceGraph(services), p) ensures p[0] != p[|p| - 1] {
      WalkGoesLower(modules, services, p);
    }
  }

  lemma {:induction false} WalkGoesLower(modules: seq<Module>, services: Services, p: seq<string>)
    requires forall s, t :: s in services && t in DepsOf(services[s]) ==> Lower(modules, s, t)
    requires |p| >= 2 && Graph.Walk(ServiceGraph(services), p)
    ensures Lower(modules, p[0], p[|p| - 1])
  {
    var g := ServiceGraph(services);
    assert Graph.Edge(g, p[0], p[1]);
    if |p| > 2 {
      forall k | 0 <= k < |p[1..]| - 1 ensures Graph.Edge(g, p[1..][k], p[1..][k + 1]) {
        assert Graph.Edge(g, p[k + 1], p[k + 2]);
      }
      WalkGoesLower(modules, services, p[1..]);
    }
  }

  lemma {:induction false} LinkedKeys(services: Services, names: map<string, seq<string>>, modules: seq<Module>)
    ensures LinkAll(services, names, modules).Keys == services.Keys
  {
    if modules == [] {
    } else {
      LinkedKeys(services, names, modules[..|modules| - 1]);
    }
  }

  // ---------------------------------------------------------------------------
  // Start-up as a state machine
  // ---------------------------------------------------------------------------

  datatype Phase = Waiting | Running | Up | Exited

  type State = map<string, Phase>

  datatype Step = Start(s: string) | BecomeHealthy(s: string) | Exit(s: string)

  predicate Satisfied(c: Condition, p: Phase) {
    match c
    case Started => p != Waiting
    case Healthy => p == Up
    case CompletedSuccessfully => p == Exited
  }

  /** A gated service is not part of the start-up; one with a healthcheck keeps running. */
  predicate Enabled(services: Services, st: State, step: Step)
    requires st.Keys == services.Keys
  {
    && step.s in services
    && match step
       case Start(s) => !services[s].gated && st[s] == Waiting
           && forall t :: t in DepsOf(services[s]) ==> t in st && Satisfied(DepsOf(services[s])[t], st[t])
       case BecomeHealthy(s) => st[s] == Running && ActiveHealthcheck(services[s])
       case Exit(s) => (st[s] == Running || st[s] == Up) && !ActiveHealthcheck(services[s])
  }

  function Next(st: State, step: Step): State {
    st[step.s := match step case Start(_) => Running case BecomeHealthy(_) => Up case Exit(_) => Exited]
  }

  /** A wait that can be met at all: for a service that starts, and can get as far as is awaited. */
  predicate Meetable(services: Services, t: string, c: Condition) {
    && t in services && !services[t].gated
    && (c == Healthy ==> ActiveHealthcheck(services[t]))
    && (c == CompletedSuccessfully ==> !ActiveHealthcheck(services[t]))
  }

  ghost predicate WaitsMeetable(services: Services) {
    forall s, t :: s in services && !services[s].gated && t in DepsOf(services[s]) ==>
      Meetable(services, t, DepsOf(services[s])[t])
  }

  /** The waits of the services that are part of the start-up. */
  ghost function StartGraph(services: Services): Graph.Graph {
    Graph.Graph(
      set s | s in services && !services[s].gated,
      map s | s in services :: Listed(DepsOf(services[s]).Keys))
  }

  /** A run of start-up: every service waiting, then one enabled step after another. */
  ghost predicate IsRun(services: Services, steps: seq<Step>, states: seq<State>) {
    && |states| == |steps| + 1
    && (forall i :: 0 <= i < |states| ==> states[i].Keys == services.Keys)
    && (forall s :: s in services ==> states[0][s] == Waiting)
    && (forall i :: 0 <= i < |steps| ==>
          Enabled(services, states[i], steps[i]) && states[i + 1] == Next(states[i], steps[i]))
  }

  ghost predicate CanMove(services: Services, st: State)
    requires st.Keys == services.Keys
  {
    exists step :: Enabled(services, st, step)
  }

  ghost predicate AllStarted(services: Services, st: State)
    requires st.Keys == services.Keys
  {
    forall s :: s in services && !services[s].gated ==> st[s] != Waiting
  }

  /** Whatever has happened so far: while a service is left to start, some step is enabled. */
  ghost predicate NeverStuck(services: Services) {
    forall steps, states :: IsRun(services, steps, states) ==>
      CanMove(services, states[|steps|]) || AllStarted(services, states[|steps|])
  }

  /** What holds of every state start-up reaches. */
  ghost predicate Plausible(services: Services, st: State) {
    && st.Keys == services.Keys
    && forall s :: s in services ==>
         && (services[s].gated ==> st[s] == Waiting)
         && (st[s] == Up ==> ActiveHealthcheck(services[s]))
         && (st[s] == Exited ==> !ActiveHealthcheck(services[s]))
  }

  lemma {:induction false} ReachedIsPlausible(services: Services, steps: seq<Step>, states: seq<State>, i: nat)
    requires IsRun(services, steps, states) && i < |states|
    ensures Plausible(services, states[i])
  {
    if i == 0 {
    } else {
      ReachedIsPlausible(services, steps, states, i - 1);
      assert Enabled(services, states[i - 1], steps[i - 1]) && states[i] == Next(states[i - 1], steps[i - 1]);
    }
  }

  // ---------------------------------------------------------------------------
  // Meetable waits without a cycle are enough
  // ---------------------------------------------------------------------------

  /** The first service of an order that has still to be started. */
  lemma {:induction false} FirstWaiting(st: State, order: seq<string>) returns (i: nat)
    requires forall s :: s in order ==> s in st
    requires exists s :: s in order && st[s] == Waiting
    ensures i < |order| && st[order[i]] == Waiting
    ensures forall j :: 0 <= j < i ==> st[order[j]] != Waiting
  {
    if st[order[0]] == Waiting {
      i := 0;
    } else {
      var i' := FirstWaiting(st, order[1..]);
      i := i' + 1;
      forall j | 0 <= j < i ensures st[order[j]] != Waiting {
        if j > 0 { assert order[j] == order[1..][j - 1]; }
      }
    }
  }

  /** What unblocks a service held up by `t`. */
  function Unblock(c: Condition, t: string): Step {
    if c == Healthy then BecomeHealthy(t) else Exit(t)
  }

  lemma HeldUpService(services: Services, st: State, t: string, c: Condition)
    requires Plausible(services, st) && Meetable(services, t, c)
    requires st[t] != Waiting && !Satisfied(c, st[t])
    ensures Enabled(services, st, Unblock(c, t))
  {
  }

  /** The first service still waiting can start, or what holds it up can move on. */
  lemma FirstWaitingMoves(services: Services, st: State, order: seq<string>, i: nat)
    requires WaitsMeetable(services) && Plausible(services, st)
    requires Graph.TopologicalOrder(StartGraph(services), order) && forall s :: s in order ==> s in st
    requires i < |order| && st[order[i]] == Waiting
    requires forall j :: 0 <= j < i ==> st[order[j]] != Waiting
    ensures CanMove(services, st)
  {
    var s := order[i];
    assert s in order && s in StartGraph(services).ids;
    if t :| t in DepsOf(services[s]) && !Satisfied(DepsOf(services[s])[t], st[t]) {
      assert Meetable(services, t, DepsOf(services[s])[t]);
      assert Graph.Edge(StartGraph(services), s, t);
      assert t in order[..i];
      HeldUpService(services, st, t, DepsOf(services[s])[t]);
    } else {
      assert Enabled(services, st, Start(s));
    }
  }

  lemma SomethingCanHappen(services: Services, st: State)
    requires WaitsMeetable(services) && !Graph.Cyclic(StartGraph(services)) && Plausible(services, st)
    requires !AllStarted(services, st)
    ensures CanMove(services, st)
  {
    var order := OrderOf(StartGraph(services));
    assert forall s :: s in order <==> s in StartGraph(services).ids;
    var w :| w in services && !services[w].gated && st[w] == Waiting;
    assert w in order;
    var i := FirstWaiting(st, order);
    FirstWaitingMoves(services, st, order, i);
  }

  // ---------------------------------------------------------------------------
  // They are needed: anything else ends in a state from which a service never starts
  // ---------------------------------------------------------------------------

  function In(st: State, phases: set<Phase>): set<string> {
    set s | s in st && st[s] in phases
  }

  lemma StepsProgress(services: Services, st: State, step: Step)
    requires st.Keys == services.Keys && Enabled(services, st, step)
    ensures In(Next(st, step), {Waiting}) <= In(st, {Waiting})
    ensures step.Start? ==> step.s in In(st, {Waiting}) - In(Next(st, step), {Waiting})
    ensures !step.Start? ==> In(Next(st, step), {Waiting}) == In(st, {Waiting})
    ensures !step.Start? ==> In(Next(st, step), {Waiting, Running}) <= In(st, {Waiting, Running})
    ensures !step.Start? && st[step.s] == Running ==>
              step.s in In(st, {Waiting, Running}) - In(Next(st, step), {Waiting, Running})
    ensures !step.Start? && st[step.s] == Up ==>
              && In(Next(st, step), {Waiting, Running}) == In(st, {Waiting, Running})
              && In(Next(st, step), {Waiting, Running, Up}) <= In(st, {Waiting, Running, Up})
              && step.s in In(st, {Waiting, Running, Up}) - In(Next(st, step), {Waiting, Running, Up})
  {
  }

  lemma OneStepFurther(services: Services, steps: seq<Step>, states: seq<State>, step: Step)
    requires IsRun(services, steps, states) && Enabled(services, states[|steps|], step)
    ensures IsRun(services, steps + [step], states + [Next(states[|steps|], step)])
  {
  }

  /** Every run can be continued until nothing more can happen. */
  lemma {:induction false} RunsSettle(services: Services, steps: seq<Step>, states: seq<State>)
    returns (steps': seq<Step>, states': seq<State>)
    requires IsRun(services, steps, states)
    ensures IsRun(services, steps', states') && steps <= steps' && states <= states'
    ensures !CanMove(services, states'[|steps'|])
    decreases In(states[|steps|], {Waiting}), In(states[|steps|], {Waiting, Running}),
              In(states[|steps|], {Waiting, Running, Up})
  {
    var st := states[|steps|];
    if step :| Enabled(services, st, step) {
      StepsProgress(services, st, step);
      OneStepFurther(services, steps, states, step);
      assert (states + [Next(st, step)])[|steps + [step]|] == Next(st, step);
      steps', states' := RunsSettle(services, steps + [step], states + [Next(st, step)]);
    } else {
      steps', states' := steps, states;
    }
  }

  lemma UnmeetableNeverSatisfied(services: Services, st: State, t: string, c: Condition)
    requires Plausible(services, st) && !Meetable(services, t, c)
    ensures t in st ==> !Satisfied(c, st[t])
  {
  }

  /** A service with a wait that cannot be met waits for ever. */
  lemma {:induction false} HopelessStaysWaiting(
    services: Services, steps: seq<Step>, states: seq<State>, i: nat, s: string, t: string)
    requires IsRun(services, steps, states) && i < |states|
    requires s in services && t in DepsOf(services[s]) && !Meetable(services, t, DepsOf(services[s])[t])
    ensures states[i][s] == Waiting
  {
    if i == 0 {
    } else {
      HopelessStaysWaiting(services, steps, states, i - 1, s, t);
      ReachedIsPlausible(services, steps, states, i - 1);
      UnmeetableNeverSatisfied(services, states[i - 1], t, DepsOf(services[s])[t]);
      assert Enabled(services, states[i - 1], steps[i - 1]) && states[i] == Next(states[i - 1], steps[i - 1]);
    }
  }

  lemma WaitingForWaiting(services: Services, st: State, step: Step, s: string, t: string)
    requires st.Keys == services.Keys && Enabled(services, st, step) && s in services && st[s] == Waiting
    requires t in DepsOf(services[s]) && t in services && st[t] == Waiting
    ensures Next(st, step)[s] == Waiting
  {
  }

  /** In a cycle every node is followed by another. */
  lemma NextOnCycle(services: Services, p: seq<string>, k: nat) returns (j: nat)
    requires Graph.Cycle(StartGraph(services), p) && k < |p|
    ensures j < |p| && p[k] in services && p[j] in services && p[j] in DepsOf(services[p[k]])
  {
    var i := if k < |p| - 1 then k else 0;
    assert Graph.Edge(StartGraph(services), p[i], p[i + 1]);
    j := i + 1;
  }

  /** So do services that wait for each other. */
  lemma {:induction false} CycleStaysWaiting(
    services: Services, steps: seq<Step>, states: seq<State>, i: nat, p: seq<string>)
    requires IsRun(services, steps, states) && i < |states| && Graph.Cycle(StartGraph(services), p)
    ensures forall k :: 0 <= k < |p| ==> p[k] in states[i] && states[i][p[k]] == Waiting
  {
    forall k | 0 <= k < |p| ensures p[k] in states[i] && states[i][p[k]] == Waiting {
      var j := NextOnCycle(services, p, k);
      if i == 0 {
      } else {
        CycleStaysWaiting(services, steps, states, i - 1, p);
        WaitingForWaiting(services, states[i - 1], steps[i - 1], p[k], p[j]);
      }
    }
  }

  /** The run in which nothing has happened yet. */
  function Idle(services: Services): State {
    map s | s in services :: Waiting
  }

  lemma StuckRun(services: Services)
    requires !WaitsMeetable(services) || Graph.Cyclic(StartGraph(services))
    ensures !NeverStuck(services)
  {
    var steps, states := RunsSettle(services, [], [Idle(services)]);
    if Graph.Cyclic(StartGraph(services)) {
      var p :| Graph.Cycle(StartGraph(services), p);
      CycleStaysWaiting(services, steps, states, |steps|, p);
      assert Graph.Edge(StartGraph(services), p[0], p[1]);
      assert !AllStarted(services, states[|steps|]);
    } else {
      var s, t :| s in services && !services[s].gated && t in DepsOf(services[s]) &&
                  !Meetable(services, t, DepsOf(services[s])[t]);
      HopelessStaysWaiting(services, steps, states, |steps|, s, t);
    }
  }

  /** Start-up never gets stuck exactly when every wait can be met and no services wait for each other. */
  lemma NeverStuckIff(services: Services)
    ensures NeverStuck(services) <==> WaitsMeetable(services) && !Graph.Cyclic(StartGraph(services))
  {
    if WaitsMeetable(services) && !Graph.Cyclic(StartGraph(services)) {
      forall steps, states | IsRun(services, steps, states)
        ensures CanMove(services, states[|steps|]) || AllStarted(services, states[|steps|])
      {
        ReachedIsPlausible(services, steps, states, |steps|);
        if !AllStarted(services, states[|steps|]) { SomethingCanHappen(services, states[|steps|]); }
      }
    } else {
      StuckRun(services);
    }
  }

  /** And then every run can be continued until all services have started. */
  lemma RunsComplete(services: Services, steps: seq<Step>, states: seq<State>)
    returns (steps': seq<Step>, states': seq<State>)
    requires NeverStuck(services) && IsRun(services, steps, states)
    ensures IsRun(services, steps', states') && steps <= steps' && states <= states'
    ensures AllStarted(services, states'[|steps'|])
  {
    steps', states' := RunsSettle(services, steps, states);
  }

  // ---------------------------------------------------------------------------
  // The start-up of a rendered file
  // ---------------------------------------------------------------------------

  /** The waits linking adds can all be met, and it leaves the others as they were. */
  lemma {:induction false} LinkedWaitsMeetable(
    modules: seq<Module>, services: Services, names: map<string, seq<string>>)
    ensures WaitsMeetable(services) ==> WaitsMeetable(LinkAll(services, names, modules))
    ensures StartupHypotheses(modules, services, names) && WaitsMeetable(LinkAll(services, names, modules)) ==>
              WaitsMeetable(services)
  {
    LinkedKeys(services, names, modules);
    var linked := LinkAll(services, names, modules);
    if WaitsMeetable(services) {
      forall s, t | s in linked && !linked[s].gated && t in DepsOf(linked[s])
        ensures Meetable(linked, t, DepsOf(linked[s])[t])
      {
        LinkedDependencies(services, names, modules, s, t);
      }
    }
    if StartupHypotheses(modules, services, names) && WaitsMeetable(linked) {
      forall s, t | s in services && !services[s].gated && t in DepsOf(services[s])
        ensures Meetable(services, t, DepsOf(services[s])[t])
      {
        LinkedDependencies(services, names, modules, s, t);
        OwnEdgeIsNotCross(modules, services, names, s, t);
      }
    }
  }

  lemma OwnEdgeIsNotCross(
    modules: seq<Module>, services: Services, names: map<string, seq<string>>, s: string, t: string)
    requires StartupHypotheses(modules, services, names) && DependsOn(services, s, t)
    ensures !CrossEdge(services, names, modules, s, t)
  {
    OwnEdge(modules, services, names, s, t);
    if CrossEdge(services, names, modules, s, t) {
      CrossModuleEdge(modules, services, names, s, t);
      EdgeDescends(ModuleGraph(modules), PlaceOf(modules, s).m.id, PlaceOf(modules, t).m.id);
    }
  }

  lemma FewerNodesAcyclic(services: Services)
    requires !Graph.Cyclic(ServiceGraph(services))
    ensures !Graph.Cyclic(StartGraph(services))
  {
    forall p | Graph.Cycle(StartGraph(services), p) ensures Graph.Cycle(ServiceGraph(services), p) {
      forall i | 0 <= i < |p| - 1 ensures Graph.Edge(ServiceGraph(services), p[i], p[i + 1]) {
        assert Graph.Edge(StartGraph(services), p[i], p[i + 1]);
      }
    }
  }

  /**
   The whole claim for a rendered file: start-up of the linked file never gets stuck
   exactly when the templates await nothing that cannot happen.
   */
  lemma {:induction false} RenderedNeverStuckIff(
    modules: seq<Module>, services: Services, names: map<string, seq<string>>)
    requires StartupHypotheses(modules, services, names)
    ensures NeverStuck(LinkAll(services, names, modules)) <==> WaitsMeetable(services)
  {
    RenderedGraphAcyclic(modules, services, names);
    FewerNodesAcyclic(LinkAll(services, names, modules));
    LinkedWaitsMeetable(modules, services, names);
    NeverStuckIff(LinkAll(services, names, modules));
  }

  // One module whose service awaits the health of another that has no healthcheck.

  function Plain(dependsOn: Declared): Template {
    Template(dependsOn, NoHealthcheck, false)
  }

  function StallingModule(): Module {
    Module("app", [], map["web" := Plain(Conditions([Wait("db", Healthy)])), "db" := Plain(Undeclared)])
  }

  function StallingServices(): Services {
    map["app-web" := Service(Some(map["app-db" := Healthy]), NoHealthcheck, false),
        "app-db" := Service(None, NoHealthcheck, false)]
  }

  lemma StallingNames(p: Place)
    requires IsPlace([StallingModule()], p)
    ensures p.m == StallingModule() && (p.name == "web" || p.name == "db")
    ensures Placed(p) == if p.name == "web" then "app-web" else "app-db"
  {
    assert p.m == StallingModule();
    assert "app" + "-" + "web" == "app-web" && "app" + "-" + "db" == "app-db";
    assert |"app" + "-"| > |p.name|;
  }

  lemma StallingRenders(names: map<string, seq<string>>)
    requires names == map["app" := ["app-web", "app-db"]]
    ensures NamesDistinct([StallingModule()])
    ensures RendersTo([StallingModule()], StallingServices(), names)
  {
    var modules, services := [StallingModule()], StallingServices();
    var web, db := Place(StallingModule(), "web"), Place(StallingModule(), "db");
    assert IsPlace(modules, web) && IsPlace(modules, db);
    StallingNames(web);
    StallingNames(db);
    assert "app-web"[4] != "app-db"[4];
    forall p | IsPlace(modules, p) ensures p == web || p == db {
      StallingNames(p);
    }
    assert Rewritten("app", [Wait("db", Healthy)]) == map["app-db" := Healthy];
    assert services[Placed(web)] == RewriteDependsOn("app", web.m.templates["web"]);
    assert services[Placed(db)] == RewriteDependsOn("app", db.m.templates["db"]);
  }

  lemma StallingOwnGraph()
    ensures OwnGraphsSound([StallingModule()])
  {
    var m := StallingModule();
    assert OwnDeps(m.templates["web"]) == ["db"] && OwnDeps(m.templates["db"]) == [];
    var order := ["db", "web"];
    forall i, b | 0 <= i < |order| && Graph.Edge(OwnGraph(m), order[i], b) ensures b in order[..i] {
      assert i == 1 && b == order[..i][0];
    }
    Graph.OrderMeansAcyclic(OwnGraph(m), order);
  }

  lemma StallingModuleGraph()
    requires NamesDistinct([StallingModule()])
    ensures !Graph.Cyclic(ModuleGraph([StallingModule()]))
  {
    Graph.OrderMeansAcyclic(ModuleGraph([StallingModule()]), ["app"]);
  }

  lemma StallingWait()
    ensures !WaitsMeetable(StallingServices())
  {
    var services := StallingServices();
    assert !Meetable(services, "app-db", DepsOf(services["app-web"])["app-db"]);
  }

  /** Nothing in rendering or in the checks before it rejects such a module, yet its start-up gets stuck. */
  lemma {:induction false} StallingTemplate(modules: seq<Module>, services: Services, names: map<string, seq<string>>)
    requires modules == [StallingModule()] && services == StallingServices()
    requires names == map["app" := ["app-web", "app-db"]]
    ensures StartupHypotheses(modules, services, names) && !NeverStuck(LinkAll(services, names, modules))
  {
    StallingRenders(names);
    StallingOwnGraph();
    StallingModuleGraph();
    assert StartupHypotheses(modules, services, names);
    StallingWait();
    RenderedNeverStuckIff(modules, services, names);
  }
}
