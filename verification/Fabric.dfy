/** The fabric source of truth and its deterministic address allocation. */
module Fabric {
  import opened Sequences

  datatype Switch = Switch(name: string, asn: int)

  datatype Host = Host(name: string, leaf: string)

  function Pow2(n: nat): (r: nat)
    ensures r > 0
  {
    if n == 0 then 1 else 2 * Pow2(n - 1)
  }

  /** An address pool: 2 to the hostBits addresses from base on. */
  datatype Pool = Pool(base: nat, hostBits: nat) {
    function Size(): nat { Pow2(hostBits) }
    /** The text parses as a network: no host bits are set. */
    predicate Parses() { base % Size() == 0 }
  }

  datatype Prefix = Prefix(base: int, length: nat)

  datatype Interfaces = Interfaces(uplink1: string, uplink2: string, downlink: string, spinePortPrefix: string,
    hostPort: string)

  /** hostSubnet is the host_subnet_template as a function of the 1-based leaf index. */
  datatype Spec = Spec(
    name: string, spines: seq<Switch>, leaves: seq<Switch>, hosts: seq<Host>,
    p2p: Pool, loopback: Pool, management: Pool, hostSubnet: nat -> Prefix,
    interfaces: Interfaces, mtu: int, capacity: int)

  datatype Role = Spine | Leaf | HostRole

  datatype Node = Node(name: string, role: Role, asn: Option<int>, loopback: Option<int>, management: int)

  datatype Port = Named(name: string) | Numbered(prefix: string, number: nat)

  datatype Endpoint = Endpoint(node: string, port: Port, address: int)

  datatype Kind = FabricLink | AccessLink

  datatype Link = Link(key: string, kind: Kind, a: Endpoint, b: Endpoint, capacity: int, mtu: int)

  datatype HostNetwork = HostNetwork(leaf: string, subnet: Prefix, gateway: int, hostIp: int)

  datatype Topology = Topology(
    name: string, management: Pool, nodes: seq<Node>, links: seq<Link>, hostNetworks: seq<HostNetwork>)

  // ----- the allocation in closed form -----

  function SwitchNode(spec: Spec, sw: Switch, role: Role, ordinal: nat): Node {
    Node(sw.name, role, Some(sw.asn), Some(spec.loopback.base + ordinal), spec.management.base + ordinal)
  }

  function SpineNodes(spec: Spec, n: nat): seq<Node>
    requires n <= |spec.spines|
  {
    seq(n, i requires 0 <= i < n => SwitchNode(spec, spec.spines[i], Spine, i + 1))
  }

  function LeafNodes(spec: Spec, n: nat): seq<Node>
    requires n <= |spec.leaves|
  {
    seq(n, i requires 0 <= i < n => SwitchNode(spec, spec.leaves[i], Leaf, |spec.spines| + i + 1))
  }

  function HostNodes(spec: Spec, n: nat): seq<Node>
    requires n <= |spec.hosts|
  {
    seq(n, i requires 0 <= i < n =>
      Node(spec.hosts[i].name, HostRole, None, None, spec.management.base + |spec.spines| + |spec.leaves| + i + 1))
  }

  function Nodes(spec: Spec): seq<Node> {
    SpineNodes(spec, |spec.spines|) + LeafNodes(spec, |spec.leaves|) + HostNodes(spec, |spec.hosts|)
  }

  /**
    The even and odd address of the link between leaf i and spine j (0-based); the stride is 2 whatever the spine count.
  */
  function LeafAddress(spec: Spec, i: nat, j: nat): int { spec.p2p.base + 2 * (2 * i + j) }
  function SpineAddress(spec: Spec, i: nat, j: nat): int { spec.p2p.base + 2 * (2 * i + j) + 1 }

  function Uplink(spec: Spec, j: nat): string { if j == 0 then spec.interfaces.uplink1 else spec.interfaces.uplink2 }

  function LinkOf(spec: Spec, i: nat, j: nat): Link
    requires i < |spec.leaves| && j < |spec.spines|
  {
    Link(spec.leaves[i].name + "-" + spec.spines[j].name, FabricLink,
         Endpoint(spec.leaves[i].name, Named(Uplink(spec, j)), LeafAddress(spec, i, j)),
         Endpoint(spec.spines[j].name, Numbered(spec.interfaces.spinePortPrefix, i + 1), SpineAddress(spec, i, j)),
         spec.capacity, spec.mtu)
  }

  /** The links of leaf i to the first n spines. */
  function LeafLinks(spec: Spec, i: nat, n: nat): seq<Link>
    requires i < |spec.leaves| && n <= |spec.spines|
  {
    seq(n, j requires 0 <= j < n => LinkOf(spec, i, j))
  }

  /** The fabric links of the first n leaves. */
  function FabricLinks(spec: Spec, n: nat): seq<Link>
    requires n <= |spec.leaves|
  {
    if n == 0 then [] else FabricLinks(spec, n - 1) + LeafLinks(spec, n - 1, |spec.spines|)
  }

  /** host_by_leaf: a later host of the same leaf replaces an earlier one. */
  function HostOf(hosts: seq<Host>, leaf: string): Option<Host> {
    if hosts == [] then None
    else if hosts[|hosts| - 1].leaf == leaf then Some(hosts[|hosts| - 1])
    else HostOf(hosts[..|hosts| - 1], leaf)
  }

  /** The gateway is the subnet's address 1, the host its address 10. */
  function NetworkFor(leaf: string, subnet: Prefix): HostNetwork {
    HostNetwork(leaf, subnet, subnet.base + 1, subnet.base + 10)
  }

  function NetworkOf(spec: Spec, i: nat): seq<HostNetwork>
    requires i < |spec.leaves|
  {
    if HostOf(spec.hosts, spec.leaves[i].name).None? then []
    else [NetworkFor(spec.leaves[i].name, spec.hostSubnet(i + 1))]
  }

  function HostNetworks(spec: Spec, n: nat): seq<HostNetwork>
    requires n <= |spec.leaves|
  {
    if n == 0 then [] else HostNetworks(spec, n - 1) + NetworkOf(spec, n - 1)
  }

  function AccessOf(spec: Spec, i: nat): seq<Link>
    requires i < |spec.leaves|
  {
    var host := HostOf(spec.hosts, spec.leaves[i].name);
    if host.None? then []
    else
      var subnet := spec.hostSubnet(i + 1);
      [Link(spec.leaves[i].name + "-" + host.value.name, AccessLink,
            Endpoint(spec.leaves[i].name, Named(spec.interfaces.downlink), subnet.base + 1),
            Endpoint(host.value.name, Named(spec.interfaces.hostPort), subnet.base + 10),
            spec.capacity, spec.mtu)]
  }

  function AccessLinks(spec: Spec, n: nat): seq<Link>
    requires n <= |spec.leaves|
  {
    if n == 0 then [] else AccessLinks(spec, n - 1) + AccessOf(spec, n - 1)
  }

  /** The uplink table has two entries, so a third spine raises KeyError as soon as there is a leaf. */
  predicate Wireable(spec: Spec) { spec.leaves == [] || |spec.spines| <= 2 }

  /** A pool that is no network raises ValueError before anything is allocated. */
  predicate Allocatable(spec: Spec) {
    spec.p2p.Parses() && spec.loopback.Parses() && spec.management.Parses() && Wireable(spec)
  }

  function Allocated(spec: Spec): Topology {
    Topology(spec.name, spec.management, Nodes(spec),
             FabricLinks(spec, |spec.leaves|) + AccessLinks(spec, |spec.leaves|),
             HostNetworks(spec, |spec.leaves|))
  }

  // ----- the allocator as it runs -----

  method AllocateNodes(spec: Spec) returns (nodes: seq<Node>)
    ensures nodes == Nodes(spec)
  {
    nodes := [];
    var ordinal: nat := 1;
    for i := 0 to |spec.spines|
      invariant nodes == SpineNodes(spec, i) && ordinal == i + 1
    {
      nodes := nodes + [SwitchNode(spec, spec.spines[i], Spine, ordinal)];
      ordinal := ordinal + 1;
    }
    for i := 0 to |spec.leaves|
      invariant nodes == SpineNodes(spec, |spec.spines|) + LeafNodes(spec, i) && ordinal == |spec.spines| + i + 1
    {
      nodes := nodes + [SwitchNode(spec, spec.leaves[i], Leaf, ordinal)];
      ordinal := ordinal + 1;
    }
    ghost var switches := nodes;
    for i := 0 to |spec.hosts|
      invariant nodes == switches + HostNodes(spec, i) && ordinal == |spec.spines| + |spec.leaves| + i + 1
    {
      nodes := nodes + [Node(spec.hosts[i].name, HostRole, None, None, spec.management.base + ordinal)];
      ordinal := ordinal + 1;
    }
  }

  /** None is the KeyError of the uplink table. */
  method AllocateLinks(spec: Spec) returns (links: Option<seq<Link>>)
    ensures links == if Wireable(spec) then Some(FabricLinks(spec, |spec.leaves|)) else None
  {
    var out: seq<Link> := [];
    for n := 1 to |spec.leaves| + 1
      invariant Wireable(spec) || n == 1
      invariant out == FabricLinks(spec, n - 1)
    {
      var leaf := spec.leaves[n - 1];
      ghost var before := out;
      for s := 1 to |spec.spines| + 1
        invariant s <= 3
        invariant out == before + LeafLinks(spec, n - 1, s - 1)
      {
        var k := 2 * (n - 1) + (s - 1);
        var leafIp, spineIp := spec.p2p.base + 2 * k, spec.p2p.base + 2 * k + 1;
        if s != 1 && s != 2 { return None; }
        var spine := spec.spines[s - 1];
        out := out + [Link(leaf.name + "-" + spine.name, FabricLink,
          Endpoint(leaf.name, Named(if s == 1 then spec.interfaces.uplink1 else spec.interfaces.uplink2), leafIp),
          Endpoint(spine.name, Numbered(spec.interfaces.spinePortPrefix, n), spineIp), spec.capacity, spec.mtu)];
      }
    }
    links := Some(out);
  }

  /** The access link and host network of every leaf with a host. */
  method AllocateAccess(spec: Spec) returns (links: seq<Link>, hostNetworks: seq<HostNetwork>)
    ensures links == AccessLinks(spec, |spec.leaves|) && hostNetworks == HostNetworks(spec, |spec.leaves|)
  {
    links, hostNetworks := [], [];
    for n := 0 to |spec.leaves|
      invariant links == AccessLinks(spec, n) && hostNetworks == HostNetworks(spec, n)
    {
      var host := HostOf(spec.hosts, spec.leaves[n].name);
      if host.None? {
        assert AccessOf(spec, n) == [] && NetworkOf(spec, n) == [];
        continue;
      }
      var subnet := spec.hostSubnet(n + 1);
      var gateway, hostIp := subnet.base + 1, subnet.base + 10;
      hostNetworks := hostNetworks + [HostNetwork(spec.leaves[n].name, subnet, gateway, hostIp)];
      links := links + [Link(spec.leaves[n].name + "-" + host.value.name, AccessLink,
        Endpoint(spec.leaves[n].name, Named(spec.interfaces.downlink), gateway),
        Endpoint(host.value.name, Named(spec.interfaces.hostPort), hostIp), spec.capacity, spec.mtu)];
    }
  }

  /** None is the ValueError of a pool or the KeyError of the uplink table. */
  method Allocate(spec: Spec) returns (topo: Option<Topology>)
    ensures topo == if Allocatable(spec) then Some(Allocated(spec)) else None
  {
    if !spec.p2p.Parses() || !spec.loopback.Parses() || !spec.management.Parses() { return None; }
    var nodes := AllocateNodes(spec);
    var fabric := AllocateLinks(spec);
    if fabric.None? { return None; }
    var access, hostNetworks := AllocateAccess(spec);
    topo := Some(Topology(spec.name, spec.management, nodes, fabric.value + access, hostNetworks));
  }
}
