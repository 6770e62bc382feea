/** The rendered BGP configuration of each switch, and the prefixes that spread under its policies. */
module Routing {
  import opened Sequences
  import opened Fabric
  import opened Validation

  /** A rendered BGP neighbour: the far address and the expected remote ASN. */
  datatype Neighbor = Neighbor(address: int, peerAs: int)

  /** A rendered data interface with its address and mask length. */
  datatype Interface = Interface(port: Port, address: int, length: nat)

  /**
    What render_srl_config writes for one switch, prefix sets matching exact lengths only. The router id is also the
    address of the system interface.
  */
  datatype Config = Config(
    asn: int, routerId: int, interfaces: seq<Interface>,
    own: seq<Prefix>, fabric: seq<Prefix>, exports: seq<Prefix>, neighbors: seq<Neighbor>)

  function MaskOf(lk: Link): nat { if lk.kind == FabricLink then 31 else 24 }

  /** The interfaces a link gives to a node, for each of its two ends. */
  function EndsOn(name: string): Link -> seq<Interface> {
    (lk: Link) =>
      (if lk.a.node == name then [Interface(lk.a.port, lk.a.address, MaskOf(lk))] else [])
      + (if lk.b.node == name then [Interface(lk.b.port, lk.b.address, MaskOf(lk))] else [])
  }

  function SwitchEndpoints(links: seq<Link>, name: string): seq<Interface> { FlatMap(links, EndsOn(name)) }

  function NodeNamed(nodes: seq<Node>, name: string): Option<Node> {
    if nodes == [] then None else if nodes[0].name == name then Some(nodes[0]) else NodeNamed(nodes[1..], name)
  }

  /** The host network's subnet, if the node is its leaf. */
  function AttachedTo(name: string): HostNetwork -> seq<Prefix> {
    (hn: HostNetwork) => if hn.leaf == name then [hn.subnet] else []
  }

  function Attached(nets: seq<HostNetwork>, name: string): seq<Prefix> { FlatMap(nets, AttachedTo(name)) }

  function LoopbackPrefix(): Node -> seq<Prefix> {
    (n: Node) => if n.loopback.Some? then [Prefix(n.loopback.value, 32)] else []
  }

  function LoopbackPrefixes(nodes: seq<Node>): seq<Prefix> { FlatMap(nodes, LoopbackPrefix()) }

  function Subnets(nets: seq<HostNetwork>): seq<Prefix> {
    seq(|nets|, i requires 0 <= i < |nets| => nets[i].subnet)
  }

  /** Every switch loopback and every host subnet. */
  function FabricPrefixes(topo: Topology): seq<Prefix> { LoopbackPrefixes(topo.nodes) + Subnets(topo.hostNetworks) }

  /** The other end of a link, if it is one of the named node's fabric links. */
  function FarEnd(lk: Link, name: string): Option<Endpoint> {
    if lk.kind != FabricLink then None
    else if lk.a.node == name then Some(lk.b) else if lk.b.node == name then Some(lk.a) else None
  }

  /** The ASN of the node at an endpoint; None raises, for a name that is no node or a node without ASN. */
  function AsnOf(nodes: seq<Node>, e: Endpoint): Option<int> {
    var node := NodeNamed(nodes, e.node);
    if node.None? then None else node.value.asn
  }

  function NeighborVia(nodes: seq<Node>, lk: Link, name: string): seq<Neighbor> {
    var far := FarEnd(lk, name);
    if far.None? || AsnOf(nodes, far.value).None? then []
    else [Neighbor(far.value.address, AsnOf(nodes, far.value).value)]
  }

  /** Every far end is a node with an ASN. */
  predicate Resolvable(nodes: seq<Node>, links: seq<Link>, name: string) {
    forall lk | lk in links :: FarEnd(lk, name).Some? ==> AsnOf(nodes, FarEnd(lk, name).value).Some?
  }

  function Via(nodes: seq<Node>, name: string): Link -> seq<Neighbor> { (lk: Link) => NeighborVia(nodes, lk, name) }

  function NeighborsOf(nodes: seq<Node>, links: seq<Link>, name: string): seq<Neighbor> {
    FlatMap(links, Via(nodes, name))
  }

  predicate IsRouter(node: Option<Node>) {
    node.Some? && node.value.role != HostRole && node.value.asn.Some? && node.value.loopback.Some?
  }

  /** The configuration of a switch; None raises, for a name that is no switch or a far end without ASN. */
  function Rendered(topo: Topology, name: string): Option<Config> {
    var node := NodeNamed(topo.nodes, name);
    if !IsRouter(node) || !Resolvable(topo.nodes, topo.links, name) then None
    else
      var own := [Prefix(node.value.loopback.value, 32)] + Attached(topo.hostNetworks, name);
      var fabric := FabricPrefixes(topo);
      Some(Config(node.value.asn.value, node.value.loopback.value, SwitchEndpoints(topo.links, name),
                  own, fabric, if node.value.role == Leaf then own else fabric,
                  NeighborsOf(topo.nodes, topo.links, name)))
  }

  lemma RenderedRouter(topo: Topology, node: Node)
    requires NodeNamed(topo.nodes, node.name) == Some(node) && IsRouter(Some(node))
    requires Resolvable(topo.nodes, topo.links, node.name)
    ensures var own := [Prefix(node.loopback.value, 32)] + Attached(topo.hostNetworks, node.name);
      Rendered(topo, node.name)
      == Some(Config(node.asn.value, node.loopback.value, SwitchEndpoints(topo.links, node.name),
                     own, FabricPrefixes(topo), if node.role == Leaf then own else FabricPrefixes(topo),
                     NeighborsOf(topo.nodes, topo.links, node.name)))
  {
  }

  /** The endpoints of the named node, link by link. */
  method CollectEndpoints(links: seq<Link>, name: string) returns (out: seq<Interface>)
    ensures out == SwitchEndpoints(links, name)
  {
    out := [];
    for i := 0 to |links|
      invariant out == SwitchEndpoints(links[..i], name)
    {
      var lk := links[i];
      assert links[..i + 1][..i] == links[..i];
      ghost var before := out;
      if lk.a.node == name { out := out + [Interface(lk.a.port, lk.a.address, MaskOf(lk))]; }
      if lk.b.node == name { out := out + [Interface(lk.b.port, lk.b.address, MaskOf(lk))]; }
      assert out == before + EndsOn(name)(lk);
    }
    assert links[..|links|] == links;
  }

  method RenderSrlConfig(topo: Topology, name: string) returns (config: Option<Config>)
    ensures config == Rendered(topo, name)
  {
    var node := NodeNamed(topo.nodes, name);
    if node.None? { return None; }
    if node.value.role == HostRole || node.value.asn.None? || node.value.loopback.None? { return None; }
    var attached: seq<Prefix> := [];
    for i := 0 to |topo.hostNetworks|
      invariant attached == Attached(topo.hostNetworks[..i], name)
    {
      assert topo.hostNetworks[..i + 1][..i] == topo.hostNetworks[..i];
      if topo.hostNetworks[i].leaf == name { attached := attached + [topo.hostNetworks[i].subnet]; }
    }
    assert topo.hostNetworks[..|topo.hostNetworks|] == topo.hostNetworks;
    var own := [Prefix(node.value.loopback.value, 32)] + attached;
    var neighbors: seq<Neighbor> := [];
    for i := 0 to |topo.links|
      invariant neighbors == NeighborsOf(topo.nodes, topo.links[..i], name)
      invariant Resolvable(topo.nodes, topo.links[..i], name)
    {
      var lk := topo.links[i];
      assert topo.links[..i + 1] == topo.links[..i] + [lk] && topo.links[..i + 1][..i] == topo.links[..i];
      if lk.kind != FabricLink { continue; }
      var far: Option<Endpoint> := None;
      if lk.a.node == name { far := Some(lk.b); } else if lk.b.node == name { far := Some(lk.a); }
      if far.None? { continue; }
      var farNode := NodeNamed(topo.nodes, far.value.node);
      if farNode.None? || farNode.value.asn.None? {
        assert lk in topo.links && FarEnd(lk, name) == far;
        return None;
      }
      neighbors := neighbors + [Neighbor(far.value.address, farNode.value.asn.value)];
    }
    assert topo.links[..|topo.links|] == topo.links;
    var fabric := FabricPrefixes(topo);
    var interfaces := CollectEndpoints(topo.links, name);
    config := Some(Config(node.value.asn.value, node.value.loopback.value, interfaces,
                          own, fabric, if node.value.role == Leaf then own else fabric, neighbors));
  }

  // ----- names -----

  lemma {:induction false} NamedAt(nodes: seq<Node>, i: nat)
    requires i < |nodes| && forall k | 0 <= k < i :: nodes[k].name != nodes[i].name
    ensures NodeNamed(nodes, nodes[i].name) == Some(nodes[i])
  {
    if i > 0 { NamedAt(nodes[1..], i - 1); }
  }

  lemma NamesAreNodeNames(spec: Spec, k: nat)
    requires k < |Nodes(spec)|
    ensures |Names(spec)| == |Nodes(spec)| && Nodes(spec)[k].name == Names(spec)[k]
  {
  }

  lemma NodeFound(spec: Spec, k: nat)
    requires Distinct(Names(spec)) && k < |Nodes(spec)|
    ensures NodeNamed(Nodes(spec), Nodes(spec)[k].name) == Some(Nodes(spec)[k])
  {
    forall i | 0 <= i < k ensures Nodes(spec)[i].name != Nodes(spec)[k].name {
      NamesAreNodeNames(spec, i);
      NamesAreNodeNames(spec, k);
    }
    NamedAt(Nodes(spec), k);
  }

  lemma SwitchFound(spec: Spec)
    requires Distinct(Names(spec))
    ensures forall j | 0 <= j < |spec.spines| ::
      NodeNamed(Nodes(spec), spec.spines[j].name) == Some(SwitchNode(spec, spec.spines[j], Spine, j + 1))
    ensures forall i | 0 <= i < |spec.leaves| ::
      NodeNamed(Nodes(spec), spec.leaves[i].name) == Some(SwitchNode(spec, spec.leaves[i], Leaf, |spec.spines| + i + 1))
  {
    forall j | 0 <= j < |spec.spines|
      ensures NodeNamed(Nodes(spec), spec.spines[j].name) == Some(SwitchNode(spec, spec.spines[j], Spine, j + 1))
    {
      NodeFound(spec, j);
    }
    forall i | 0 <= i < |spec.leaves|
      ensures NodeNamed(Nodes(spec), spec.leaves[i].name)
        == Some(SwitchNode(spec, spec.leaves[i], Leaf, |spec.spines| + i + 1))
    {
      assert Nodes(spec)[|spec.spines| + i] == SwitchNode(spec, spec.leaves[i], Leaf, |spec.spines| + i + 1);
      NodeFound(spec, |spec.spines| + i);
    }
  }

  lemma NamesDiffer(spec: Spec)
    requires Distinct(Names(spec))
    ensures forall i, k | 0 <= i < k < |spec.leaves| :: spec.leaves[i].name != spec.leaves[k].name
    ensures forall j, k | 0 <= j < k < |spec.spines| :: spec.spines[j].name != spec.spines[k].name
    ensures forall i, j | 0 <= i < |spec.leaves| && 0 <= j < |spec.spines| :: spec.leaves[i].name != spec.spines[j].name
  {
    var s := |spec.spines|;
    assert forall i | 0 <= i < |spec.leaves| :: Names(spec)[s + i] == spec.leaves[i].name;
    assert forall j | 0 <= j < s :: Names(spec)[j] == spec.spines[j].name;
  }

  /** A fabric link's ends are switches. */
  lemma LinkResolves(spec: Spec, i: nat, j: nat)
    requires Distinct(Names(spec)) && i < |spec.leaves| && j < |spec.spines|
    ensures AsnOf(Nodes(spec), LinkOf(spec, i, j).a) == Some(spec.leaves[i].asn)
    ensures AsnOf(Nodes(spec), LinkOf(spec, i, j).b) == Some(spec.spines[j].asn)
  {
    SwitchFound(spec);
    hide NodeNamed, Nodes, Names, Distinct;
  }

  lemma {:induction false} FabricLinkIs(spec: Spec, n: nat, lk: Link)
    requires n <= |spec.leaves| && lk in FabricLinks(spec, n)
    ensures exists i: nat, j: nat :: i < |spec.leaves| && j < |spec.spines| && lk == LinkOf(spec, i, j)
  {
    if lk in LeafLinks(spec, n - 1, |spec.spines|) {
      var j :| 0 <= j < |spec.spines| && LeafLinks(spec, n - 1, |spec.spines|)[j] == lk;
      assert lk == LinkOf(spec, n - 1, j);
    } else {
      FabricLinkIs(spec, n - 1, lk);
    }
  }

  lemma {:induction false} AccessLinkIs(spec: Spec, n: nat, lk: Link)
    requires n <= |spec.leaves| && lk in AccessLinks(spec, n)
    ensures lk.kind == AccessLink
  {
    if lk !in AccessOf(spec, n - 1) { AccessLinkIs(spec, n - 1, lk); }
  }

  /** On an allocated topology the renderer never fails to resolve a far end. */
  lemma AllocatedResolves(spec: Spec, name: string)
    requires Distinct(Names(spec))
    ensures Resolvable(Nodes(spec), Allocated(spec).links, name)
  {
    forall lk | lk in Allocated(spec).links && FarEnd(lk, name).Some?
      ensures AsnOf(Nodes(spec), FarEnd(lk, name).value).Some?
    {
      if lk in AccessLinks(spec, |spec.leaves|) {
        AccessLinkIs(spec, |spec.leaves|, lk);
        assert false;
      } else {
        FabricLinkIs(spec, |spec.leaves|, lk);
        var i: nat, j: nat :| i < |spec.leaves| && j < |spec.spines| && lk == LinkOf(spec, i, j);
        LinkResolves(spec, i, j);
      }
    }
  }

  // ----- rendered neighbours -----

  /** The neighbours of leaf i: every spine end of its links, with that spine's ASN. */
  function LeafNeighbors(spec: Spec, i: nat, n: nat): seq<Neighbor>
    requires n <= |spec.spines|
  {
    seq(n, j requires 0 <= j < n => Neighbor(SpineAddress(spec, i, j), spec.spines[j].asn))
  }

  /** The neighbours of spine j: every leaf end of its links, with that leaf's ASN. */
  function SpineNeighbors(spec: Spec, j: nat, n: nat): seq<Neighbor>
    requires n <= |spec.leaves|
  {
    seq(n, i requires 0 <= i < n => Neighbor(LeafAddress(spec, i, j), spec.leaves[i].asn))
  }

  lemma LinkFromLeaf(spec: Spec, l: nat, j: nat, i: nat)
    requires Distinct(Names(spec)) && l < |spec.leaves| && i < |spec.leaves| && j < |spec.spines|
    ensures NeighborVia(Nodes(spec), LinkOf(spec, l, j), spec.leaves[i].name)
         == if l == i then [Neighbor(SpineAddress(spec, i, j), spec.spines[j].asn)] else []
  {
    SwitchFound(spec);
    NamesDiffer(spec);
  }

  lemma LinkFromSpine(spec: Spec, l: nat, k: nat, j: nat)
    requires Distinct(Names(spec)) && l < |spec.leaves| && k < |spec.spines| && j < |spec.spines|
    ensures NeighborVia(Nodes(spec), LinkOf(spec, l, k), spec.spines[j].name)
         == if k == j then [Neighbor(LeafAddress(spec, l, j), spec.leaves[l].asn)] else []
  {
    SwitchFound(spec);
    NamesDiffer(spec);
  }

  /** Leaf l's links seen from a leaf: all of them for itself, none for another. */
  lemma {:induction false} FromLeaf(spec: Spec, l: nat, n: nat, i: nat)
    requires Distinct(Names(spec)) && l < |spec.leaves| && i < |spec.leaves| && n <= |spec.spines|
    ensures NeighborsOf(Nodes(spec), LeafLinks(spec, l, n), spec.leaves[i].name)
      == if l == i then LeafNeighbors(spec, i, n) else []
  {
    if n > 0 {
      FromLeaf(spec, l, n - 1, i);
      LinkFromLeaf(spec, l, n - 1, i);
      assert LeafLinks(spec, l, n)[..n - 1] == LeafLinks(spec, l, n - 1);
      assert LeafNeighbors(spec, i, n)
        == LeafNeighbors(spec, i, n - 1) + [Neighbor(SpineAddress(spec, i, n - 1), spec.spines[n - 1].asn)];
    }
  }

  /** Leaf l's links seen from spine j: exactly the one between them. */
  lemma {:induction false} FromSpine(spec: Spec, l: nat, n: nat, j: nat)
    requires Distinct(Names(spec)) && l < |spec.leaves| && j < |spec.spines| && n <= |spec.spines|
    ensures NeighborsOf(Nodes(spec), LeafLinks(spec, l, n), spec.spines[j].name)
         == if j < n then [Neighbor(LeafAddress(spec, l, j), spec.leaves[l].asn)] else []
  {
    if n > 0 {
      FromSpine(spec, l, n - 1, j);
      LinkFromSpine(spec, l, n - 1, j);
      assert LeafLinks(spec, l, n)[..n - 1] == LeafLinks(spec, l, n - 1);
    }
  }

  lemma NotViaAccess(nodes: seq<Node>, lk: Link, name: string)
    requires lk.kind == AccessLink
    ensures Via(nodes, name)(lk) == []
  {
  }

  lemma NoneFromAccessOf(spec: Spec, i: nat, name: string)
    requires i < |spec.leaves|
    ensures NeighborsOf(Nodes(spec), AccessOf(spec, i), name) == []
  {
    var links := AccessOf(spec, i);
    if links != [] {
      NotViaAccess(Nodes(spec), links[0], name);
      FlatMapAppend([], links[0], Via(Nodes(spec), name));
      assert [] + [links[0]] == links;
      hide AccessOf, Via, Nodes;
    }
  }

  lemma {:induction false} NoneFromAccess(spec: Spec, n: nat, name: string)
    requires n <= |spec.leaves|
    ensures NeighborsOf(Nodes(spec), AccessLinks(spec, n), name) == []
  {
    if n > 0 {
      NoneFromAccess(spec, n - 1, name);
      NoneFromAccessOf(spec, n - 1, name);
      FlatMapConcat(AccessLinks(spec, n - 1), AccessOf(spec, n - 1), Via(Nodes(spec), name));
      hide AccessOf, Via, Nodes, FlatMap;
    }
  }

  /** A map over the fabric links, leaf by leaf. */
  function LeafWise<U>(spec: Spec, n: nat, f: Link -> seq<U>): seq<U>
    requires n <= |spec.leaves|
  {
    if n == 0 then [] else LeafWise(spec, n - 1, f) + FlatMap(LeafLinks(spec, n - 1, |spec.spines|), f)
  }

  lemma {:induction false} LeafByLeaf<U>(spec: Spec, n: nat, f: Link -> seq<U>)
    requires n <= |spec.leaves|
    ensures FlatMap(FabricLinks(spec, n), f) == LeafWise(spec, n, f)
  {
    if n > 0 {
      LeafByLeaf(spec, n - 1, f);
      FlatMapConcat(FabricLinks(spec, n - 1), LeafLinks(spec, n - 1, |spec.spines|), f);
    }
  }

  lemma {:induction false} OnlyLeaf<U>(spec: Spec, n: nat, i: nat, f: Link -> seq<U>, own: seq<U>)
    requires n <= |spec.leaves|
    requires forall l | 0 <= l < |spec.leaves| ::
      FlatMap(LeafLinks(spec, l, |spec.spines|), f) == if l == i then own else []
    ensures LeafWise(spec, n, f) == if i < n then own else []
  {
    hide FlatMap, LeafLinks;
    if n > 0 { OnlyLeaf(spec, n - 1, i, f, own); }
  }

  lemma {:induction false} OnePerLeaf<U>(spec: Spec, n: nat, f: Link -> seq<U>, all: seq<U>)
    requires n <= |spec.leaves| == |all|
    requires forall l | 0 <= l < |spec.leaves| :: FlatMap(LeafLinks(spec, l, |spec.spines|), f) == [all[l]]
    ensures LeafWise(spec, n, f) == all[..n]
  {
    hide FlatMap, LeafLinks;
    if n > 0 { OnePerLeaf(spec, n - 1, f, all); }
  }

  lemma AllFabric(spec: Spec, name: string)
    ensures NeighborsOf(Nodes(spec), Allocated(spec).links, name)
      == NeighborsOf(Nodes(spec), FabricLinks(spec, |spec.leaves|), name)
  {
    var n := |spec.leaves|;
    FlatMapConcat(FabricLinks(spec, n), AccessLinks(spec, n), Via(Nodes(spec), name));
    NoneFromAccess(spec, n, name);
  }

  /** Rendered neighbours of a leaf: the far end and ASN of every spine, and nothing else. */
  lemma LeafNeighborsAreExact(spec: Spec, i: nat)
    requires Distinct(Names(spec)) && i < |spec.leaves|
    ensures NeighborsOf(Nodes(spec), Allocated(spec).links, spec.leaves[i].name)
      == LeafNeighbors(spec, i, |spec.spines|)
  {
    var name := spec.leaves[i].name;
    AllFabric(spec, name);
    forall l | 0 <= l < |spec.leaves|
      ensures NeighborsOf(Nodes(spec), LeafLinks(spec, l, |spec.spines|), name)
        == if l == i then LeafNeighbors(spec, i, |spec.spines|) else []
    {
      FromLeaf(spec, l, |spec.spines|, i);
    }
    LeafByLeaf(spec, |spec.leaves|, Via(Nodes(spec), name));
    OnlyLeaf(spec, |spec.leaves|, i, Via(Nodes(spec), name), LeafNeighbors(spec, i, |spec.spines|));
  }

  /** Rendered neighbours of a spine: the far end and ASN of every leaf, and nothing else. */
  lemma SpineNeighborsAreExact(spec: Spec, j: nat)
    requires Distinct(Names(spec)) && j < |spec.spines|
    ensures NeighborsOf(Nodes(spec), Allocated(spec).links, spec.spines[j].name)
      == SpineNeighbors(spec, j, |spec.leaves|)
  {
    var name := spec.spines[j].name;
    AllFabric(spec, name);
    forall l | 0 <= l < |spec.leaves|
      ensures NeighborsOf(Nodes(spec), LeafLinks(spec, l, |spec.spines|), name)
        == [Neighbor(LeafAddress(spec, l, j), spec.leaves[l].asn)]
    {
      FromSpine(spec, l, |spec.spines|, j);
    }
    LeafByLeaf(spec, |spec.leaves|, Via(Nodes(spec), name));
    OnePerLeaf(spec, |spec.leaves|, Via(Nodes(spec), name), SpineNeighbors(spec, j, |spec.leaves|));
  }
}
