/** The least closure of originating, exporting and importing under the rendered policies. */
module Reachability {
  import opened Sequences
  import opened Fabric
  import opened Validation
  import opened Routing

  /** What the closure needs of a spec. */
  ghost predicate Sound(spec: Spec) { Distinct(Names(spec)) && Distinct(Asns(spec)) && spec.spines != [] }

  /** The validator's empty error list establishes it for any fabric with a spine. */
  lemma ValidIsSound(spec: Spec)
    requires ValidationErrors(spec) == Some([]) && spec.spines != []
    ensures Sound(spec)
  {
    NoErrorsMeansAccepted(spec);
    hide ValidationErrors, NoCollisions, Allocated;
  }

  /** Switches are numbered spines first; u is a spine exactly when u < |spines|. */
  predicate IsSwitch(spec: Spec, u: nat) { u < |spec.spines| + |spec.leaves| }

  function SwitchAt(spec: Spec, u: nat): Switch
    requires IsSwitch(spec, u)
  {
    if u < |spec.spines| then spec.spines[u] else spec.leaves[u - |spec.spines|]
  }

  function LoopbackAt(spec: Spec, u: nat): Prefix { Prefix(spec.loopback.base + u + 1, 32) }

  /** The host subnets attached to switch u. */
  predicate HostSubnet(spec: Spec, u: nat, p: Prefix)
    requires IsSwitch(spec, u)
  {
    u >= |spec.spines| && HostOf(spec.hosts, SwitchAt(spec, u).name).Some?
      && p == spec.hostSubnet(u - |spec.spines| + 1)
  }

  predicate Own(spec: Spec, u: nat, p: Prefix)
    requires IsSwitch(spec, u)
  {
    p == LoopbackAt(spec, u) || HostSubnet(spec, u, p)
  }

  /** Some switch originates p. */
  ghost predicate InFabric(spec: Spec, p: Prefix) { exists u: nat | IsSwitch(spec, u) :: Own(spec, u, p) }

  function ConfigAt(spec: Spec, u: nat): Option<Config>
    requires IsSwitch(spec, u)
  {
    Rendered(Allocated(spec), SwitchAt(spec, u).name)
  }

  // ----- the rendered prefix sets -----

  lemma {:induction false} NetworkMember(spec: Spec, n: nat, hn: HostNetwork)
    requires n <= |spec.leaves|
    ensures hn in HostNetworks(spec, n) <==> exists i: nat | i < n :: hn in NetworkOf(spec, i)
  {
    if n > 0 { NetworkMember(spec, n - 1, hn); }
  }

  /** A host network named like switch u is the one of leaf u. */
  lemma NetworkOfSwitch(spec: Spec, u: nat, hn: HostNetwork)
    requires Distinct(Names(spec)) && IsSwitch(spec, u)
    ensures hn in HostNetworks(spec, |spec.leaves|) && hn.leaf == SwitchAt(spec, u).name
       <==> HostSubnet(spec, u, hn.subnet) && hn == NetworkFor(SwitchAt(spec, u).name, hn.subnet)
  {
    NetworkMember(spec, |spec.leaves|, hn);
    NamesDiffer(spec);
    hide Names, Distinct, HostNetworks;
    if HostSubnet(spec, u, hn.subnet) && hn == NetworkFor(SwitchAt(spec, u).name, hn.subnet) {
      assert hn in NetworkOf(spec, u - |spec.spines|);
    }
  }

  lemma AttachedIff(nets: seq<HostNetwork>, name: string, p: Prefix)
    ensures p in Attached(nets, name) <==> exists hn | hn in nets :: hn.leaf == name && hn.subnet == p
  {
    FlatMapMember(nets, AttachedTo(name), p);
    hide FlatMap;
    if exists hn | hn in nets :: hn.leaf == name && hn.subnet == p {
      var hn :| hn in nets && hn.leaf == name && hn.subnet == p;
      assert p in AttachedTo(name)(hn);
    }
  }

  lemma AttachedMember(spec: Spec, u: nat, p: Prefix)
    requires Distinct(Names(spec)) && IsSwitch(spec, u)
    ensures p in Attached(Allocated(spec).hostNetworks, SwitchAt(spec, u).name) <==> HostSubnet(spec, u, p)
  {
    hide Names, Distinct, HostNetworks, HostSubnet, Attached, SwitchAt, Nodes, FabricLinks, AccessLinks;
    var name, nets := SwitchAt(spec, u).name, HostNetworks(spec, |spec.leaves|);
    AttachedIff(nets, name, p);
    NetworkOfSwitch(spec, u, NetworkFor(name, p));
    if exists hn | hn in nets :: hn.leaf == name && hn.subnet == p {
      var hn :| hn in nets && hn.leaf == name && hn.subnet == p;
      NetworkOfSwitch(spec, u, hn);
    }
  }

  lemma SubnetMember(spec: Spec, p: Prefix)
    ensures p in Subnets(Allocated(spec).hostNetworks) <==> exists u: nat | IsSwitch(spec, u) :: HostSubnet(spec, u, p)
  {
    var nets := Allocated(spec).hostNetworks;
    if p in Subnets(nets) {
      var k :| 0 <= k < |nets| && nets[k].subnet == p;
      NetworkMember(spec, |spec.leaves|, nets[k]);
      var i: nat :| i < |spec.leaves| && nets[k] in NetworkOf(spec, i);
      assert IsSwitch(spec, |spec.spines| + i) && HostSubnet(spec, |spec.spines| + i, p);
    }
    if exists u: nat | IsSwitch(spec, u) :: HostSubnet(spec, u, p) {
      var u: nat :| IsSwitch(spec, u) && HostSubnet(spec, u, p);
      var hn := NetworkFor(SwitchAt(spec, u).name, p);
      assert hn in NetworkOf(spec, u - |spec.spines|);
      NetworkMember(spec, |spec.leaves|, hn);
      var k :| 0 <= k < |nets| && nets[k] == hn;
      assert Subnets(nets)[k] == p;
    }
  }

  lemma NodeAt(spec: Spec, u: nat)
    requires IsSwitch(spec, u)
    ensures u < |Nodes(spec)|
    ensures Nodes(spec)[u] == SwitchNode(spec, SwitchAt(spec, u), if u < |spec.spines| then Spine else Leaf, u + 1)
  {
  }

  lemma LoopbackMember(spec: Spec, p: Prefix)
    ensures p in LoopbackPrefixes(Nodes(spec)) <==> exists u: nat | IsSwitch(spec, u) :: p == LoopbackAt(spec, u)
  {
    var nodes := Nodes(spec);
    FlatMapMember(nodes, LoopbackPrefix(), p);
    hide FlatMap;
    if exists n | n in nodes :: p in LoopbackPrefix()(n) {
      var k :| 0 <= k < |nodes| && p in LoopbackPrefix()(nodes[k]);
      assert k < |spec.spines| + |spec.leaves|;
      NodeAt(spec, k);
      assert IsSwitch(spec, k) && p == LoopbackAt(spec, k);
    }
    if exists u: nat | IsSwitch(spec, u) :: p == LoopbackAt(spec, u) {
      var u: nat :| IsSwitch(spec, u) && p == LoopbackAt(spec, u);
      NodeAt(spec, u);
      assert nodes[u] in nodes && p in LoopbackPrefix()(nodes[u]);
    }
  }

  /** The rendered "fabric" prefix set is exactly what the switches originate. */
  lemma FabricSetIsExact(spec: Spec, p: Prefix)
    ensures p in FabricPrefixes(Allocated(spec)) <==> InFabric(spec, p)
  {
    LoopbackMember(spec, p);
    SubnetMember(spec, p);
    if InFabric(spec, p) {
      var u: nat :| IsSwitch(spec, u) && Own(spec, u, p);
    }
    if p in LoopbackPrefixes(Nodes(spec)) {
      var u: nat :| IsSwitch(spec, u) && p == LoopbackAt(spec, u);
      assert Own(spec, u, p);
    }
    if p in Subnets(Allocated(spec).hostNetworks) {
      var u: nat :| IsSwitch(spec, u) && HostSubnet(spec, u, p);
      assert Own(spec, u, p);
    }
  }

  lemma NodeForSwitch(spec: Spec, u: nat)
    requires Distinct(Names(spec)) && IsSwitch(spec, u)
    ensures NodeNamed(Nodes(spec), SwitchAt(spec, u).name)
         == Some(SwitchNode(spec, SwitchAt(spec, u), if u < |spec.spines| then Spine else Leaf, u + 1))
  {
    SwitchFound(spec);
  }

  /** The configuration rendered for switch u. */
  lemma ConfigIs(spec: Spec, u: nat)
    requires Distinct(Names(spec)) && IsSwitch(spec, u)
    ensures var topo, sw := Allocated(spec), SwitchAt(spec, u);
      var own := [LoopbackAt(spec, u)] + Attached(topo.hostNetworks, sw.name);
      ConfigAt(spec, u) == Some(Config(
        sw.asn, spec.loopback.base + u + 1, SwitchEndpoints(topo.links, sw.name),
        own, FabricPrefixes(topo), if u < |spec.spines| then FabricPrefixes(topo) else own,
        NeighborsOf(topo.nodes, topo.links, sw.name)))
  {
    hide Rendered, Resolvable, NodeNamed, Nodes, Names, Distinct, NeighborsOf, Attached, FabricPrefixes, SwitchAt,
      HostNetworks;
    hide SwitchEndpoints, FabricLinks, AccessLinks;
    NodeForSwitch(spec, u);
    AllocatedResolves(spec, SwitchAt(spec, u).name);
    RenderedRouter(Allocated(spec),
      SwitchNode(spec, SwitchAt(spec, u), if u < |spec.spines| then Spine else Leaf, u + 1));
  }

  /** Each switch's rendered own, import and export sets. */
  lemma PoliciesAreExact(spec: Spec, u: nat, p: Prefix)
    requires Distinct(Names(spec)) && IsSwitch(spec, u)
    ensures var c := ConfigAt(spec, u);
      && c.Some? && c.value.asn == SwitchAt(spec, u).asn
      && (p in c.value.own <==> Own(spec, u, p))
      && (p in c.value.fabric <==> InFabric(spec, p))
      && (p in c.value.exports <==> if u < |spec.spines| then InFabric(spec, p) else Own(spec, u, p))
  {
    ConfigIs(spec, u);
    AttachedMember(spec, u, p);
    FabricSetIsExact(spec, p);
    hide ConfigAt, Allocated, Names, Distinct, NeighborsOf, Attached, FabricPrefixes, InFabric, SwitchAt, HostSubnet;
  }

  // ----- sessions -----

  /** a is an address of the named node on one of its fabric links. */
  ghost predicate HasAddress(links: seq<Link>, name: string, a: int) {
    exists lk | lk in links ::
      lk.kind == FabricLink && ((lk.a.node == name && lk.a.address == a) || (lk.b.node == name && lk.b.address == a))
  }

  /** u is configured with an address and the ASN of v. */
  ghost predicate Expects(spec: Spec, u: nat, v: nat)
    requires IsSwitch(spec, u) && IsSwitch(spec, v)
  {
    && ConfigAt(spec, u).Some?
    && exists n | n in ConfigAt(spec, u).value.neighbors ::
         n.peerAs == SwitchAt(spec, v).asn && HasAddress(Allocated(spec).links, SwitchAt(spec, v).name, n.address)
  }

  /** A BGP session comes up when both ends are configured with the other's address and ASN. */
  ghost predicate Session(spec: Spec, u: nat, v: nat) {
    IsSwitch(spec, u) && IsSwitch(spec, v) && Expects(spec, u, v) && Expects(spec, v, u)
  }

  lemma {:induction false} LinkMember(spec: Spec, n: nat, i: nat, j: nat)
    requires i < n <= |spec.leaves| && j < |spec.spines|
    ensures LinkOf(spec, i, j) in FabricLinks(spec, n)
  {
    if i == n - 1 {
      assert LeafLinks(spec, i, |spec.spines|)[j] == LinkOf(spec, i, j);
    } else {
      LinkMember(spec, n - 1, i, j);
    }
  }

  lemma ConfigNeighbors(spec: Spec, u: nat)
    requires Distinct(Names(spec)) && IsSwitch(spec, u)
    ensures ConfigAt(spec, u).Some?
    ensures ConfigAt(spec, u).value.neighbors == NeighborsOf(Nodes(spec), Allocated(spec).links, SwitchAt(spec, u).name)
  {
    ConfigIs(spec, u);
    hide ConfigAt, Allocated, Names, Distinct, NeighborsOf, Attached, FabricPrefixes, SwitchAt;
  }

  lemma LinkIsAllocated(spec: Spec, i: nat, j: nat)
    requires i < |spec.leaves| && j < |spec.spines|
    ensures HasAddress(Allocated(spec).links, spec.spines[j].name, SpineAddress(spec, i, j))
    ensures HasAddress(Allocated(spec).links, spec.leaves[i].name, LeafAddress(spec, i, j))
  {
    LinkMember(spec, |spec.leaves|, i, j);
    assert LinkOf(spec, i, j) in Allocated(spec).links;
  }

  lemma LeafExpectsSpine(spec: Spec, i: nat, j: nat)
    requires Distinct(Names(spec)) && i < |spec.leaves| && j < |spec.spines|
    ensures Expects(spec, |spec.spines| + i, j)
  {
    hide Names, Distinct, ConfigAt, NeighborsOf, Allocated, HasAddress, Nodes;
    ConfigNeighbors(spec, |spec.spines| + i);
    LeafNeighborsAreExact(spec, i);
    LinkIsAllocated(spec, i, j);
    assert LeafNeighbors(spec, i, |spec.spines|)[j] in ConfigAt(spec, |spec.spines| + i).value.neighbors;
  }

  lemma SpineExpectsLeaf(spec: Spec, i: nat, j: nat)
    requires Distinct(Names(spec)) && i < |spec.leaves| && j < |spec.spines|
    ensures Expects(spec, j, |spec.spines| + i)
  {
    hide Names, Distinct, ConfigAt, NeighborsOf, Allocated, HasAddress, Nodes;
    ConfigNeighbors(spec, j);
    SpineNeighborsAreExact(spec, j);
    LinkIsAllocated(spec, i, j);
    assert SpineNeighbors(spec, j, |spec.leaves|)[i] in ConfigAt(spec, j).value.neighbors;
  }

  /** Rendered neighbours are reciprocal: every leaf has a session with every spine. */
  lemma LeafSpineSession(spec: Spec, i: nat, j: nat)
    requires Distinct(Names(spec)) && i < |spec.leaves| && j < |spec.spines|
    ensures Session(spec, |spec.spines| + i, j) && Session(spec, j, |spec.spines| + i)
  {
    hide Names, Distinct, Expects;
    LeafExpectsSpine(spec, i, j);
    SpineExpectsLeaf(spec, i, j);
  }

  lemma AsnAt(spec: Spec, u: nat)
    requires IsSwitch(spec, u)
    ensures |Asns(spec)| == |spec.spines| + |spec.leaves| && Asns(spec)[u] == SwitchAt(spec, u).asn
  {
  }

  lemma AsnsDiffer(spec: Spec, u: nat, v: nat)
    requires Distinct(Asns(spec)) && IsSwitch(spec, u) && IsSwitch(spec, v) && u != v
    ensures SwitchAt(spec, u).asn != SwitchAt(spec, v).asn
  {
    AsnAt(spec, u);
    AsnAt(spec, v);
    assert u < v || v < u;
  }

  /** A spine's neighbours carry leaf ASNs, and a leaf's carry spine ASNs. */
  lemma NeighborRole(spec: Spec, u: nat, n: Neighbor)
    requires Distinct(Names(spec)) && IsSwitch(spec, u)
    requires n in NeighborsOf(Nodes(spec), Allocated(spec).links, SwitchAt(spec, u).name)
    ensures exists w: nat ::
      IsSwitch(spec, w) && (w < |spec.spines| <==> u >= |spec.spines|) && n.peerAs == SwitchAt(spec, w).asn
  {
    if u < |spec.spines| {
      SpineNeighborsAreExact(spec, u);
      var i :| 0 <= i < |spec.leaves| && SpineNeighbors(spec, u, |spec.leaves|)[i] == n;
      assert IsSwitch(spec, |spec.spines| + i) && SwitchAt(spec, |spec.spines| + i) == spec.leaves[i];
    } else {
      var i: nat := u - |spec.spines|;
      LeafNeighborsAreExact(spec, i);
      var j :| 0 <= j < |spec.spines| && LeafNeighbors(spec, i, |spec.spines|)[j] == n;
      assert IsSwitch(spec, j) && SwitchAt(spec, j) == spec.spines[j];
    }
  }

  /** Two switches of the same role never have a session: the configured ASN is the other role's. */
  lemma NoSameRoleSession(spec: Spec, u: nat, v: nat)
    requires Sound(spec) && IsSwitch(spec, u) && IsSwitch(spec, v) && (u < |spec.spines| <==> v < |spec.spines|)
    ensures !Session(spec, u, v)
  {
    ConfigNeighbors(spec, u);
    forall n | n in ConfigAt(spec, u).value.neighbors ensures n.peerAs != SwitchAt(spec, v).asn {
      NeighborRole(spec, u, n);
      var w: nat :| IsSwitch(spec, w) && (w < |spec.spines| <==> u >= |spec.spines|)
        && n.peerAs == SwitchAt(spec, w).asn;
      AsnsDiffer(spec, w, v);
    }
  }

  ghost predicate DistinctAddresses(ns: seq<Neighbor>) {
    forall x, y | 0 <= x < y < |ns| :: ns[x].address != ns[y].address
  }

  /** A switch lists one neighbour for each switch of the other role, and no address twice. */
  lemma NeighborsAreDistinct(spec: Spec, u: nat)
    requires Distinct(Names(spec)) && IsSwitch(spec, u)
    ensures var c := ConfigAt(spec, u);
      && c.Some?
      && |c.value.neighbors| == (if u < |spec.spines| then |spec.leaves| else |spec.spines|)
      && DistinctAddresses(c.value.neighbors)
  {
    hide Names, Distinct, ConfigAt, NeighborsOf, Allocated, Nodes;
    ConfigNeighbors(spec, u);
    if u < |spec.spines| { SpineNeighborsAreExact(spec, u); } else { LeafNeighborsAreExact(spec, u - |spec.spines|); }
  }

  // ----- the closure -----

  /** The prefix of a link end's own subnet, a /31 on fabric links and a /24 on access links. */
  function LinkPrefix(lk: Link, e: Endpoint): Prefix {
    if lk.kind == FabricLink then Prefix(e.address - e.address % 2, 31) else Prefix(e.address - e.address % 256, 24)
  }

  /** What switch u has without BGP: its own prefixes and its connected link subnets. */
  ghost predicate Connected(spec: Spec, u: nat, p: Prefix)
    requires IsSwitch(spec, u)
  {
    || Own(spec, u, p)
    || exists lk | lk in Allocated(spec).links ::
         (lk.a.node == SwitchAt(spec, u).name && p == LinkPrefix(lk, lk.a))
           || (lk.b.node == SwitchAt(spec, u).name && p == LinkPrefix(lk, lk.b))
  }

  /** p crosses the session from u to v: u's export policy and v's import policy both accept it. */
  ghost predicate Crosses(spec: Spec, u: nat, v: nat, p: Prefix) {
    Session(spec, u, v) && ConfigAt(spec, u).Some? && ConfigAt(spec, v).Some?
    && p in ConfigAt(spec, u).value.exports && p in ConfigAt(spec, v).value.fabric
  }

  /** What switch u has after k rounds of everyone advertising what it has. */
  ghost predicate Rib(spec: Spec, k: nat, u: nat, p: Prefix)
    requires IsSwitch(spec, u)
  {
    if k == 0 then Connected(spec, u, p)
    else Rib(spec, k - 1, u, p) || exists v: nat | IsSwitch(spec, v) :: Rib(spec, k - 1, v, p) && Crosses(spec, v, u, p)
  }

  /**
    Nothing outside the fabric set ever crosses a session, link /31s included, and a leaf only advertises its own
    prefixes.
  */
  lemma OnlyFabricCrosses(spec: Spec, u: nat, v: nat, p: Prefix)
    requires Distinct(Names(spec)) && Crosses(spec, u, v, p)
    ensures InFabric(spec, p) && (u >= |spec.spines| ==> Own(spec, u, p))
  {
    PoliciesAreExact(spec, u, p);
    PoliciesAreExact(spec, v, p);
  }

  ghost predicate LeafOwned(spec: Spec, p: Prefix) {
    exists u: nat | |spec.spines| <= u && IsSwitch(spec, u) :: Own(spec, u, p)
  }

  lemma {:induction false} RibAtMost(spec: Spec, k: nat, u: nat, p: Prefix)
    requires Sound(spec) && IsSwitch(spec, u) && Rib(spec, k, u, p)
    ensures Connected(spec, u, p) || (if u < |spec.spines| then LeafOwned(spec, p) else InFabric(spec, p))
  {
    if k > 0 {
      if Rib(spec, k - 1, u, p) {
        RibAtMost(spec, k - 1, u, p);
      } else {
        var v: nat :| IsSwitch(spec, v) && Rib(spec, k - 1, v, p) && Crosses(spec, v, u, p);
        OnlyFabricCrosses(spec, v, u, p);
        if u < |spec.spines| {
          if v < |spec.spines| { NoSameRoleSession(spec, v, u); }
        }
      }
    }
  }

  lemma {:induction false} RibGrows(spec: Spec, k: nat, m: nat, u: nat, p: Prefix)
    requires k <= m && IsSwitch(spec, u) && Rib(spec, k, u, p)
    ensures Rib(spec, m, u, p)
    decreases m - k
  {
    if k < m { RibGrows(spec, k + 1, m, u, p); }
  }

  lemma CrossesUp(spec: Spec, i: nat, j: nat, p: Prefix)
    requires Distinct(Names(spec)) && i < |spec.leaves| && j < |spec.spines| && Own(spec, |spec.spines| + i, p)
    ensures Crosses(spec, |spec.spines| + i, j, p)
  {
    var u := |spec.spines| + i;
    hide ConfigAt, Session, Names, Distinct, SwitchAt, HostSubnet;
    LeafSpineSession(spec, i, j);
    PoliciesAreExact(spec, u, p);
    PoliciesAreExact(spec, j, p);
  }

  lemma CrossesDown(spec: Spec, i: nat, j: nat, p: Prefix)
    requires Distinct(Names(spec)) && i < |spec.leaves| && j < |spec.spines| && InFabric(spec, p)
    ensures Crosses(spec, j, |spec.spines| + i, p)
  {
    var u := |spec.spines| + i;
    hide ConfigAt, Session, Names, Distinct, SwitchAt, HostSubnet;
    LeafSpineSession(spec, i, j);
    PoliciesAreExact(spec, u, p);
    PoliciesAreExact(spec, j, p);
  }

  lemma SpineLearns(spec: Spec, j: nat, p: Prefix)
    requires Sound(spec) && j < |spec.spines| && LeafOwned(spec, p)
    ensures Rib(spec, 1, j, p)
  {
    var u: nat :| |spec.spines| <= u && IsSwitch(spec, u) && Own(spec, u, p);
    CrossesUp(spec, u - |spec.spines|, j, p);
    assert Rib(spec, 0, u, p);
  }

  lemma LeafLearns(spec: Spec, i: nat, p: Prefix)
    requires Sound(spec) && i < |spec.leaves| && InFabric(spec, p)
    ensures Rib(spec, 2, |spec.spines| + i, p)
  {
    var u := |spec.spines| + i;
    var w: nat :| IsSwitch(spec, w) && Own(spec, w, p);
    var j := if w < |spec.spines| then w else 0;
    if w < |spec.spines| {
      assert Rib(spec, 0, w, p);
      RibGrows(spec, 0, 1, w, p);
    } else {
      SpineLearns(spec, 0, p);
    }
    CrossesDown(spec, i, j, p);
  }

  /**
    From the second round on nothing changes: every leaf has exactly the fabric prefixes, and every spine exactly its
    own and the leaves' prefixes, besides what is connected.
  */
  lemma ReachabilityIsExact(spec: Spec, k: nat, u: nat, p: Prefix)
    requires Sound(spec) && IsSwitch(spec, u) && k >= 2
    ensures Rib(spec, k, u, p)
      <==> Connected(spec, u, p) || (if u < |spec.spines| then LeafOwned(spec, p) else InFabric(spec, p))
  {
    if Rib(spec, k, u, p) {
      RibAtMost(spec, k, u, p);
    } else {
      if Connected(spec, u, p) {
        assert Rib(spec, 0, u, p);
        RibGrows(spec, 0, k, u, p);
      }
      if u < |spec.spines| {
        if LeafOwned(spec, p) {
          SpineLearns(spec, u, p);
          RibGrows(spec, 1, k, u, p);
        }
      } else if InFabric(spec, p) {
        LeafLearns(spec, u - |spec.spines|, p);
        RibGrows(spec, 2, k, u, p);
      }
    }
  }

  /** With /24 host subnets, a spine misses exactly the other spines' loopbacks. */
  lemma SpineMissesOtherLoopbacks(spec: Spec, k: nat, j: nat, p: Prefix)
    requires Sound(spec) && j < |spec.spines| && k >= 2 && InFabric(spec, p)
    requires forall i: nat :: spec.hostSubnet(i).length == 24
    ensures Rib(spec, k, j, p) <==> !exists s: nat | s < |spec.spines| && s != j :: p == LoopbackAt(spec, s)
  {
    ReachabilityIsExact(spec, k, j, p);
    var w: nat :| IsSwitch(spec, w) && Own(spec, w, p);
    if w >= |spec.spines| {
      assert LeafOwned(spec, p);
    }
  }

  // ----- from the validator's answer to the network -----

  /** The rendered neighbours of switch u: one for each switch of the other role, all apart, and a session with each. */
  ghost predicate WellConnected(spec: Spec, u: nat)
    requires IsSwitch(spec, u)
  {
    && ConfigAt(spec, u).Some? && DistinctAddresses(ConfigAt(spec, u).value.neighbors)
    && |ConfigAt(spec, u).value.neighbors| == (if u < |spec.spines| then |spec.leaves| else |spec.spines|)
    && forall v: nat | IsSwitch(spec, v) && (u < |spec.spines| <==> v >= |spec.spines|) :: Session(spec, u, v)
  }

  lemma SoundConnects(spec: Spec, u: nat)
    requires Sound(spec) && IsSwitch(spec, u)
    ensures WellConnected(spec, u)
  {
    hide ConfigAt, DistinctAddresses, Session, Names, Asns, Distinct;
    NeighborsAreDistinct(spec, u);
    forall v: nat | IsSwitch(spec, v) && (u < |spec.spines| <==> v >= |spec.spines|) ensures Session(spec, u, v) {
      var leaf: nat, spine: nat :=
        (if u < |spec.spines| then v else u) - |spec.spines|, if u < |spec.spines| then u else v;
      LeafSpineSession(spec, leaf, spine);
    }
  }

  /**
    End to end: when the validator reports nothing for a spec with a spine, every switch is rendered with one neighbour
    for each switch of the other role and has a session with each, and the prefixes spread exactly as designed.
  */
  lemma ValidFabricReaches(spec: Spec, k: nat, u: nat, p: Prefix)
    requires ValidationErrors(spec) == Some([]) && spec.spines != [] && IsSwitch(spec, u) && k >= 2
    ensures WellConnected(spec, u)
    ensures Rib(spec, k, u, p)
      <==> Connected(spec, u, p) || (if u < |spec.spines| then LeafOwned(spec, p) else InFabric(spec, p))
  {
    hide *;
    ValidIsSound(spec);
    SoundConnects(spec, u);
    ReachabilityIsExact(spec, k, u, p);
  }
}
