// What a Kubernetes NetworkPolicy means: which traffic a set of policies lets through.
module Cluster {
  import opened Cidr
  import opened Document

  /** Label keys: those the chart writes, those the cluster's DNS carries, and the rest. */
  datatype Label = ModuleId | Instance | WorkloadName | ManagedBy | PartOf | NamespaceName | K8sApp | Other(key: string)

  type Labels = map<Label, string>

  /** A pod, seen through what selectors can read. */
  datatype Pod = Pod(inRelease: bool, namespaceLabels: Labels, labels: Labels)

  /** One end of a connection: an address, and the pod behind it if there is one. */
  datatype Endpoint = Endpoint(ip: Address, pod: Option<Pod>)

  /** A rule's peer: pods of the policy's own namespace, pods elsewhere, or an IP block. */
  datatype Peer =
    | Pods(labels: Labels)
    | PodsIn(namespaceLabels: Labels, labels: Labels)
    | Block(cidr: Network, except: seq<Network>)

  datatype PortRule = PortRule(protocol: string, port: int)

  /** An empty peer or port set stands for the missing field: everything matches. */
  datatype Rule = Rule(peers: set<Peer>, ports: set<PortRule>)

  /** A policy of the release's namespace; a direction it does not list is `None`. */
  datatype Policy = Policy(selector: Labels, ingress: Option<seq<Rule>>, egress: Option<seq<Rule>>)

  predicate Selects(selector: Labels, labels: Labels) {
    forall k :: k in selector ==> k in labels && labels[k] == selector[k]
  }

  predicate PeerMatches(peer: Peer, e: Endpoint) {
    match peer
    case Pods(labels) => e.pod.Some? && e.pod.value.inRelease && Selects(labels, e.pod.value.labels)
    case PodsIn(ns, labels) => e.pod.Some? && Selects(ns, e.pod.value.namespaceLabels) &&
      Selects(labels, e.pod.value.labels)
    case Block(cidr, except) => In(e.ip, cidr) && forall x :: x in except ==> !In(e.ip, x)
  }

  ghost predicate RuleAdmits(rule: Rule, other: Endpoint, protocol: string, port: int) {
    && (rule.peers == {} || exists peer :: peer in rule.peers && PeerMatches(peer, other))
    && (rule.ports == {} || PortRule(protocol, port) in rule.ports)
  }

  predicate Applies(p: Policy, e: Endpoint) {
    e.pod.Some? && e.pod.value.inRelease && Selects(p.selector, e.pod.value.labels)
  }

  /** The policies of one direction isolate a pod; what any of them admits gets through. */
  ghost predicate EgressAllowed(policies: seq<Policy>, src: Endpoint, dst: Endpoint, protocol: string, port: int) {
    || (forall p :: p in policies && Applies(p, src) ==> p.egress.None?)
    || (exists p, rule :: p in policies && Applies(p, src) && p.egress.Some? && rule in p.egress.value
                          && RuleAdmits(rule, dst, protocol, port))
  }

  ghost predicate IngressAllowed(policies: seq<Policy>, src: Endpoint, dst: Endpoint, protocol: string, port: int) {
    || (forall p :: p in policies && Applies(p, dst) ==> p.ingress.None?)
    || (exists p, rule :: p in policies && Applies(p, dst) && p.ingress.Some? && rule in p.ingress.value
                          && RuleAdmits(rule, src, protocol, port))
  }

  ghost predicate Allowed(policies: seq<Policy>, src: Endpoint, dst: Endpoint, protocol: string, port: int) {
    EgressAllowed(policies, src, dst, protocol, port) && IngressAllowed(policies, src, dst, protocol, port)
  }

  /** A port as written in a plan; a text carries the number `int()` reads from it, if any. */
  datatype PortField = Absent | Flag(b: bool) | Number(n: int) | Text(value: Option<int>, digitsOnly: bool)

  /** A port written as the number `n`, or as a text that reads as it; booleans are no numbers. */
  predicate Denotes(p: PortField, n: int) {
    p in {Number(n), Text(Some(n), true), Text(Some(n), false)}
  }

  function IntOrNone(p: PortField): Option<int> {
    match p
    case Absent => None
    case Flag(_) => None
    case Number(n) => Some(n)
    case Text(value, _) => value
  }

  lemma DenotesIff(p: PortField, n: int)
    ensures IntOrNone(p) == Some(n) <==> Denotes(p, n)
  {
  }
}
