// Declared external egress (cli/k8s_renderer.py): validating an entry, rendering it
// as an ipBlock rule, and the coverage test the wait-gate check relies on.
module Egress {
  import opened Cidr
  import opened Document
  import opened Cluster

  datatype HostField = UnresolvedHost | NotAnIp | Literal(address: Address)

  /** CIDR text after reading: not a block at all, or a base with a prefix length. */
  datatype CidrField = UnresolvedCidr | NotACidr | Prefix(version: Version, base: nat, len: nat)

  datatype ExceptField = NoExcept | ExceptNotTexts | ExceptList(items: seq<CidrField>)

  datatype ProtocolField = DefaultProtocol | ProtocolNotText | Named(upper: string)

  datatype PortsField = NoPorts | PortsNotList | PortList(items: seq<PortField>)

  /** One declared entry after substitution. */
  datatype RawEntry =
    | NotAMapping
    | RawEntry(unknownKeys: bool, host: Option<HostField>, cidr: Option<CidrField>, except: ExceptField,
               protocol: ProtocolField, port: PortField, ports: PortsField)

  datatype Entry = Entry(cidr: Network, except: seq<Network>, ports: Option<set<PortRule>>)

  const PROTOCOLS := {"TCP", "UDP", "SCTP"}

  /** Strict reading: the base must carry no host bits. */
  function StrictNetwork(c: CidrField): Option<Network> {
    if c.Prefix? && WellFormed(Network(c.version, c.base, c.len)) then Some(Network(c.version, c.base, c.len)) else None
  }

  function Destination(raw: RawEntry): Option<Network>
    requires raw.RawEntry?
  {
    match (raw.host, raw.cidr)
    case (Some(Literal(a)), None) => Some(HostNetwork(a))
    case (None, Some(c)) => StrictNetwork(c)
    case _ => None
  }

  function ExceptItems(raw: RawEntry): seq<CidrField>
    requires raw.RawEntry?
  {
    if raw.except.ExceptList? then raw.except.items else []
  }

  function PortItems(raw: RawEntry): seq<PortField>
    requires raw.RawEntry?
  {
    (if raw.port == Absent then [] else [raw.port]) + if raw.ports.PortList? then raw.ports.items else []
  }

  predicate IsPort(p: PortField) {
    IntOrNone(p).Some? && 1 <= IntOrNone(p).value <= 65535
  }

  function ProtocolOf(raw: RawEntry): string
    requires raw.RawEntry?
  {
    if raw.protocol.Named? then raw.protocol.upper else "TCP"
  }

  ghost predicate ExceptionsSound(items: seq<CidrField>, network: Network) {
    forall i :: 0 <= i < |items| ==> StrictNetwork(items[i]).Some? && SubnetOf(StrictNetwork(items[i]).value, network)
  }

  /** What an entry must be not to fail with E153. */
  ghost predicate Acceptable(raw: RawEntry) {
    && raw.RawEntry? && !raw.unknownKeys && Destination(raw).Some?
    && !raw.except.ExceptNotTexts?
    && ExceptionsSound(ExceptItems(raw), Destination(raw).value)
    && !raw.protocol.ProtocolNotText? && ProtocolOf(raw) in PROTOCOLS
    && !raw.ports.PortsNotList? && raw.ports != PortList([])
    && forall i :: 0 <= i < |PortItems(raw)| ==> IsPort(PortItems(raw)[i])
  }

  ghost function Normalized(raw: RawEntry): Entry
    requires Acceptable(raw)
  {
    var items := ExceptItems(raw);
    Entry(Destination(raw).value,
          seq(|items|, i requires 0 <= i < |items| => StrictNetwork(items[i]).value),
          if PortItems(raw) == [] then None else Some(PortRules(ProtocolOf(raw), PortItems(raw))))
  }

  function PortRules(protocol: string, items: seq<PortField>): set<PortRule>
    requires forall i :: 0 <= i < |items| ==> IsPort(items[i])
  {
    set i | 0 <= i < |items| && IsPort(items[i]) :: PortRule(protocol, IntOrNone(items[i]).value)
  }

  method ReadDestination(raw: RawEntry) returns (network: Option<Network>)
    requires raw.RawEntry?
    ensures network == Destination(raw)
  {
    if raw.host.None? == raw.cidr.None? {
      return None;
    }
    if raw.host.Some? {
      if !raw.host.value.Literal? {
        return None;
      }
      return Some(HostNetwork(raw.host.value.address));
    }
    return StrictNetwork(raw.cidr.value);
  }

  method ReadExceptions(items: seq<CidrField>, network: Network) returns (except: Option<seq<Network>>)
    ensures except.Some? <==> ExceptionsSound(items, network)
    ensures except.Some? ==> |except.value| == |items|
    ensures except.Some? ==> forall i :: 0 <= i < |items| ==> StrictNetwork(items[i]) == Some(except.value[i])
  {
    var networks: seq<Network> := [];
    for i := 0 to |items|
      invariant |networks| == i
      invariant forall j :: 0 <= j < i ==>
                StrictNetwork(items[j]) == Some(networks[j]) && SubnetOf(networks[j], network)
    {
      var block := StrictNetwork(items[i]);
      if block.None? || !SubnetOf(block.value, network) {
        return None;
      }
      networks := networks + [block.value];
    }
    except := Some(networks);
  }

  method ReadPorts(protocol: string, items: seq<PortField>) returns (ports: Option<set<PortRule>>)
    ensures ports.Some? <==> forall i :: 0 <= i < |items| ==> IsPort(items[i])
    ensures ports.Some? ==> ports.value == PortRules(protocol, items)
  {
    var rules: set<PortRule> := {};
    for i := 0 to |items|
      invariant forall j :: 0 <= j < i ==> IsPort(items[j])
      invariant rules == PortRules(protocol, items[..i])
    {
      if !IsPort(items[i]) {
        return None;
      }
      assert items[..i + 1] == items[..i] + [items[i]];
      OnePortMore(protocol, items[..i], items[i]);
      rules := rules + {PortRule(protocol, IntOrNone(items[i]).value)};
    }
    assert items[..|items|] == items;
    ports := Some(rules);
  }

  method ParseEgressEntry(raw: RawEntry) returns (entry: Option<Entry>)
    ensures entry.Some? <==> Acceptable(raw)
    ensures entry.Some? ==> entry.value == Normalized(raw)
  {
    if raw.NotAMapping? || raw.unknownKeys {
      return None;
    }
    var network := ReadDestination(raw);
    if network.None? || raw.except.ExceptNotTexts? {
      return None;
    }
    var except := ReadExceptions(ExceptItems(raw), network.value);
    if except.None? || raw.protocol.ProtocolNotText? || ProtocolOf(raw) !in PROTOCOLS {
      return None;
    }
    if raw.ports.PortsNotList? || raw.ports == PortList([]) {
      return None;
    }
    var ports := ReadPorts(ProtocolOf(raw), PortItems(raw));
    if ports.None? {
      return None;
    }
    entry := Some(Entry(network.value, except.value, if PortItems(raw) == [] then None else ports));
    assert except.value == Normalized(raw).except;
  }

  lemma OnePortMore(protocol: string, items: seq<PortField>, p: PortField)
    requires IsPort(p) && forall i :: 0 <= i < |items| ==> IsPort(items[i])
    ensures PortRules(protocol, items + [p]) == PortRules(protocol, items) + {PortRule(protocol, IntOrNone(p).value)}
  {
    var all := items + [p];
    forall r | r in PortRules(protocol, items) ensures r in PortRules(protocol, all) {
      var i :| 0 <= i < |items| && r == PortRule(protocol, IntOrNone(items[i]).value);
      assert all[i] == items[i];
    }
    assert all[|items|] == p;
  }

  // ---------------------------------------------------------------------------
  // Acceptance and meaning, in terms of the written fields
  // ---------------------------------------------------------------------------

  /** A number from 1 to 65535, however it is written. */
  ghost predicate IsPortNumber(p: PortField) {
    exists n :: 1 <= n <= 65535 && Denotes(p, n)
  }

  lemma PortIff(p: PortField)
    ensures IsPort(p) <==> IsPortNumber(p)
  {
    if IsPort(p) { DenotesIff(p, IntOrNone(p).value); }
    if n :| 1 <= n <= 65535 && Denotes(p, n) { DenotesIff(p, n); }
  }

  /** The block an entry names: a single address, or a prefix without host bits. */
  ghost predicate Names(raw: RawEntry, n: Network)
    requires raw.RawEntry?
  {
    match (raw.host, raw.cidr)
    case (Some(Literal(a)), None) => n == HostNetwork(a)
    case (None, Some(Prefix(version, base, len))) => n == Network(version, base, len) && WellFormed(n)
    case _ => false
  }

  ghost predicate ExceptsInside(except: ExceptField, n: Network) {
    match except
    case NoExcept => true
    case ExceptNotTexts => false
    case ExceptList(items) =>
      forall c :: c in items ==>
        c.Prefix? && WellFormed(Network(c.version, c.base, c.len)) && SubnetOf(Network(c.version, c.base, c.len), n)
  }

  /** A port, or a list with at least one, or neither. */
  ghost predicate PortsInRange(port: PortField, ports: PortsField) {
    && (port == Absent || IsPortNumber(port))
    && match ports
       case NoPorts => true
       case PortsNotList => false
       case PortList(items) => items != [] && forall p :: p in items ==> IsPortNumber(p)
  }

  lemma AcceptableIff(raw: RawEntry)
    ensures Acceptable(raw) <==>
            && raw.RawEntry? && !raw.unknownKeys
            && (exists n :: Names(raw, n) && ExceptsInside(raw.except, n))
            && raw.protocol in {DefaultProtocol, Named("TCP"), Named("UDP"), Named("SCTP")}
            && PortsInRange(raw.port, raw.ports)
  {
    if raw.RawEntry? {
      forall n ensures Names(raw, n) <==> Destination(raw) == Some(n) {}
      forall p ensures IsPort(p) <==> IsPortNumber(p) { PortIff(p); }
      PortItemsAre(raw);
      var items := PortItems(raw);
      assert (forall i :: 0 <= i < |items| ==> IsPort(items[i])) <==> forall p :: p in items ==> IsPort(p);
      if Destination(raw).Some? {
        ExceptsIff(raw.except, Destination(raw).value);
        assert Names(raw, Destination(raw).value);
      }
    }
  }

  lemma PortItemsAre(raw: RawEntry)
    requires raw.RawEntry?
    ensures forall p :: p in PortItems(raw) <==>
              (p != Absent && p == raw.port) || (raw.ports.PortList? && p in raw.ports.items)
  {
  }

  lemma ExceptsIff(except: ExceptField, n: Network)
    ensures ExceptsInside(except, n) <==>
            !except.ExceptNotTexts? && ExceptionsSound(if except.ExceptList? then except.items else [], n)
  {
    if except.ExceptList? {
      var items := except.items;
      assert forall c :: c in items <==> exists i :: 0 <= i < |items| && items[i] == c;
    }
  }

  /** An accepted entry opens its block, less the exceptions, on the ports written, over TCP if nothing is said. */
  lemma NormalizedMeans(raw: RawEntry, r: PortRule)
    requires Acceptable(raw)
    ensures var e := Normalized(raw);
            && Names(raw, e.cidr)
            && (raw.except.NoExcept? ==> e.except == [])
            && (raw.except.ExceptList? ==>
                  |e.except| == |raw.except.items| &&
                  forall i :: 0 <= i < |e.except| ==>
                    raw.except.items[i] == Prefix(e.except[i].version, e.except[i].base, e.except[i].len))
            && (e.ports.None? <==> raw.port == Absent && raw.ports == NoPorts)
            && (e.ports.Some? ==>
                  (r in e.ports.value <==>
                   && (raw.protocol == Named(r.protocol) || (raw.protocol == DefaultProtocol && r.protocol == "TCP"))
                   && exists p :: (p == raw.port || (raw.ports.PortList? && p in raw.ports.items)) &&
                                  Denotes(p, r.port)))
  {
    PortItemsAre(raw);
    forall p ensures IntOrNone(p) == Some(r.port) <==> Denotes(p, r.port) { DenotesIff(p, r.port); }
    var items := PortItems(raw);
    if r in PortRules(ProtocolOf(raw), items) {
      var i :| 0 <= i < |items| && IsPort(items[i]) && r == PortRule(ProtocolOf(raw), IntOrNone(items[i]).value);
      assert items[i] in items;
    }
    if p :| p in items && Denotes(p, r.port) {
      var i :| 0 <= i < |items| && items[i] == p;
      assert PortRule(ProtocolOf(raw), IntOrNone(items[i]).value) in PortRules(ProtocolOf(raw), items);
    }
  }

  /** Exceptions of an accepted entry never reach outside its block. */
  lemma ExceptionsInsideBlock(raw: RawEntry, x: Network, a: Address)
    requires Acceptable(raw) && x in Normalized(raw).except && In(a, x)
    ensures In(a, Normalized(raw).cidr)
  {
    var items := ExceptItems(raw);
    var i :| 0 <= i < |items| && StrictNetwork(items[i]) == Some(x);
    if raw.host.Some? { HostNetworkHoldsOnlyIt(raw.host.value.address, a); }
    SubnetIffContained(x, Normalized(raw).cidr);
  }

  function EgressRule(entry: Entry): Rule {
    Rule({Block(entry.cidr, entry.except)}, if entry.ports.Some? then entry.ports.value else {})
  }

  /** The coverage test for TCP traffic to `host:port`; `None` for a host that is no IP. */
  predicate EntryCovers(entry: Entry, host: Option<Address>, port: Option<int>) {
    && host.Some? && In(host.value, entry.cidr)
    && (forall x :: x in entry.except ==> !In(host.value, x))
    && (entry.ports.None? || (port.Some? && PortRule("TCP", port.value) in entry.ports.value))
  }

  /** An accepted entry never renders an empty port list, which would mean every port. */
  lemma PortsNeverEmpty(raw: RawEntry)
    requires Acceptable(raw)
    ensures Normalized(raw).ports != Some({})
    ensures forall r :: Normalized(raw).ports.Some? && r in Normalized(raw).ports.value ==>
            r.protocol in PROTOCOLS && 1 <= r.port <= 65535
  {
    if PortItems(raw) != [] {
      assert PortRule(ProtocolOf(raw), IntOrNone(PortItems(raw)[0]).value) in Normalized(raw).ports.value;
    }
  }

  /** The rendered rule admits TCP to an address and port exactly when the entry covers it. */
  lemma RuleAdmitsIffCovered(entry: Entry, dst: Endpoint, port: int)
    requires entry.ports != Some({})
    ensures RuleAdmits(EgressRule(entry), dst, "TCP", port) <==> EntryCovers(entry, Some(dst.ip), Some(port))
  {
    var peer := Block(entry.cidr, entry.except);
    assert EgressRule(entry).peers == {peer} && peer in EgressRule(entry).peers;
  }
}
