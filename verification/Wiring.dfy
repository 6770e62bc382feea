/** The allocated links and the rendered switches in names, numbers and addresses. */
module Wiring {
  import opened Sequences
  import opened Fabric
  import opened Validation
  import opened Routing
  import opened Ports
  import opened Reachability

  /** An allocation needs three pools without host bits, and an uplink for each spine as soon as there is a leaf. */
  lemma AllocatesIff(spec: Spec)
    ensures Allocatable(spec) <==>
      && spec.p2p.base % Pow2(spec.p2p.hostBits) == 0 && spec.loopback.base % Pow2(spec.loopback.hostBits) == 0
      && spec.management.base % Pow2(spec.management.hostBits) == 0
      && (|spec.leaves| == 0 || |spec.spines| == 0 || |spec.spines| == 1 || |spec.spines| == 2)
  {
  }

  // ----- fabric links -----

  lemma {:induction false} LinkIndex(spec: Spec, n: nat, i: nat, j: nat)
    requires i < n <= |spec.leaves| && j < |spec.spines|
    ensures |FabricLinks(spec, n)| == n * |spec.spines| && i * |spec.spines| + j < n * |spec.spines|
    ensures FabricLinks(spec, n)[i * |spec.spines| + j] == LinkOf(spec, i, j)
  {
    var w := |spec.spines|;
    hide LinkOf;
    FabricLength(spec, n - 1);
    RowsFit(i, j, n, w);
    if i < n - 1 { LinkIndex(spec, n - 1, i, j); }
  }

  lemma {:induction false} FabricLength(spec: Spec, n: nat)
    requires n <= |spec.leaves|
    ensures |FabricLinks(spec, n)| == n * |spec.spines|
  {
    if n > 0 { FabricLength(spec, n - 1); }
  }

  lemma Times(a: nat, b: nat, w: nat)
    requires a <= b
    ensures a * w <= b * w && (a + 1) * w == a * w + w
  {
    assert b * w - a * w == (b - a) * w >= 0;
  }

  lemma RowsFit(i: nat, j: nat, n: nat, w: nat)
    requires i < n && j < w
    ensures n * w == (n - 1) * w + w && i * w + j < n * w && (i == n - 1 <==> i * w + j >= (n - 1) * w)
  {
    Times(n - 1, n, w);
    if i < n - 1 {
      Times(i, n - 1, w);
      Times(i + 1, n - 1, w);
    }
  }

  /**
    The links of leaf i follow one another in the order of the spines. The first spine is on the first uplink, at the
    addresses 4 i and 4 i + 1 of the pool; the second on the second uplink, at 4 i + 2 and 4 i + 3.
  */
  lemma LinksAre(spec: Spec, i: nat, j: nat)
    requires i < |spec.leaves| && j < |spec.spines| <= 2
    ensures var links, leaf, spine, k :=
        Allocated(spec).links, spec.leaves[i], spec.spines[j], i * |spec.spines| + j;
      && k < |links|
      && links[k].key == leaf.name + "-" + spine.name && links[k].kind == FabricLink
      && links[k].a.node == leaf.name && links[k].b.node == spine.name
      && (j == 0 ==> links[k].a.port == Named(spec.interfaces.uplink1) && links[k].a.address == spec.p2p.base + 4 * i
                     && links[k].b.address == spec.p2p.base + 4 * i + 1)
      && (j == 1 ==> links[k].a.port == Named(spec.interfaces.uplink2)
                     && links[k].a.address == spec.p2p.base + 4 * i + 2
                     && links[k].b.address == spec.p2p.base + 4 * i + 3)
      && links[k].b.port == Numbered(spec.interfaces.spinePortPrefix, i + 1)
      && links[k].capacity == spec.capacity && links[k].mtu == spec.mtu
  {
    LinkIndex(spec, |spec.leaves|, i, j);
    hide FabricLinks, AccessLinks, Nodes, HostNetworks;
  }

  // ----- hosts -----

  /** Host k is the last one listed for the leaf. */
  ghost predicate LastHost(hosts: seq<Host>, leaf: string, k: nat) {
    k < |hosts| && hosts[k].leaf == leaf && forall m | k < m < |hosts| :: hosts[m].leaf != leaf
  }

  lemma {:induction false} HostOfIs(hosts: seq<Host>, leaf: string, h: Host)
    ensures HostOf(hosts, leaf) == Some(h) <==> exists k: nat :: LastHost(hosts, leaf, k) && hosts[k] == h
  {
    if hosts != [] {
      var n := |hosts| - 1;
      if hosts[n].leaf != leaf {
        HostOfIs(hosts[..n], leaf, h);
        forall k: nat ensures LastHost(hosts, leaf, k) <==> LastHost(hosts[..n], leaf, k) {
          if LastHost(hosts[..n], leaf, k) {
            assert forall m | k < m < n :: hosts[..n][m] == hosts[m];
          }
        }
      } else {
        assert LastHost(hosts, leaf, n);
      }
    }
  }

  /** Host k is attached to leaf i. */
  ghost predicate AttachedHost(spec: Spec, i: nat, k: nat)
    requires i < |spec.leaves|
  {
    LastHost(spec.hosts, spec.leaves[i].name, k)
  }

  /** The access link of leaf i with host k: the leaf has address 1 of the subnet, the host address 10. */
  ghost predicate IsAccess(spec: Spec, i: nat, k: nat, lk: Link)
    requires i < |spec.leaves| && k < |spec.hosts|
  {
    var subnet := spec.hostSubnet(i + 1);
    lk == Link(spec.leaves[i].name + "-" + spec.hosts[k].name, AccessLink,
               Endpoint(spec.leaves[i].name, Named(spec.interfaces.downlink), subnet.base + 1),
               Endpoint(spec.hosts[k].name, Named(spec.interfaces.hostPort), subnet.base + 10),
               spec.capacity, spec.mtu)
  }

  lemma AccessOfIs(spec: Spec, i: nat, lk: Link)
    requires i < |spec.leaves|
    ensures lk in AccessOf(spec, i) <==> exists k: nat :: AttachedHost(spec, i, k) && IsAccess(spec, i, k, lk)
  {
    var leaf, host := spec.leaves[i].name, HostOf(spec.hosts, spec.leaves[i].name);
    if host.Some? {
      HostOfIs(spec.hosts, leaf, host.value);
      var k: nat :| LastHost(spec.hosts, leaf, k) && spec.hosts[k] == host.value;
      assert AttachedHost(spec, i, k);
    }
    if k: nat :| AttachedHost(spec, i, k) && IsAccess(spec, i, k, lk) {
      HostOfIs(spec.hosts, leaf, spec.hosts[k]);
    }
    hide HostOf, LastHost;
  }

  lemma {:induction false} AccessUpTo(spec: Spec, n: nat, lk: Link)
    requires n <= |spec.leaves|
    ensures lk in AccessLinks(spec, n)
       <==> exists i: nat, k: nat :: i < n && AttachedHost(spec, i, k) && IsAccess(spec, i, k, lk)
  {
    if n > 0 {
      AccessUpTo(spec, n - 1, lk);
      AccessOfIs(spec, n - 1, lk);
      hide AccessOf, AttachedHost, IsAccess;
    }
  }

  /** The access links are exactly those of the leaves with a host. */
  lemma AccessLinksAre(spec: Spec, lk: Link)
    ensures lk in Allocated(spec).links && lk.kind == AccessLink
       <==> exists i: nat, k: nat :: i < |spec.leaves| && AttachedHost(spec, i, k) && IsAccess(spec, i, k, lk)
  {
    AccessUpTo(spec, |spec.leaves|, lk);
    if lk in FabricLinks(spec, |spec.leaves|) { FabricLinkIs(spec, |spec.leaves|, lk); }
    hide FabricLinks, AccessLinks, AttachedHost;
  }

  ghost predicate Hosted(spec: Spec, i: nat)
    requires i < |spec.leaves|
  {
    exists h | h in spec.hosts :: h.leaf == spec.leaves[i].name
  }

  lemma {:induction false} HostedIff(hosts: seq<Host>, leaf: string)
    ensures HostOf(hosts, leaf).Some? <==> exists h | h in hosts :: h.leaf == leaf
  {
    if hosts != [] {
      var n := |hosts| - 1;
      HostedIff(hosts[..n], leaf);
      assert forall h :: h in hosts <==> h in hosts[..n] || h == hosts[n];
    }
  }

  /** The host networks are those of the hosted leaves: gateway at address 1, host at address 10. */
  lemma HostNetworksAre(spec: Spec, hn: HostNetwork)
    ensures hn in Allocated(spec).hostNetworks <==>
      exists i: nat | i < |spec.leaves| ::
        var subnet := spec.hostSubnet(i + 1);
        Hosted(spec, i) && hn == HostNetwork(spec.leaves[i].name, subnet, subnet.base + 1, subnet.base + 10)
  {
    NetworkMember(spec, |spec.leaves|, hn);
    forall i: nat | i < |spec.leaves|
      ensures hn in NetworkOf(spec, i) <==>
        var subnet := spec.hostSubnet(i + 1);
        Hosted(spec, i) && hn == HostNetwork(spec.leaves[i].name, subnet, subnet.base + 1, subnet.base + 10)
    {
      HostedIff(spec.hosts, spec.leaves[i].name);
    }
    hide HostNetworks, HostOf, Hosted, NetworkOf;
  }

  /** The nodes: spines, then leaves, then hosts, each at the next address of its pools. */
  lemma NodesAre(spec: Spec, k: nat)
    requires k < |spec.spines| + |spec.leaves| + |spec.hosts|
    ensures var nodes, s, l := Allocated(spec).nodes, |spec.spines|, |spec.leaves|;
      && |nodes| == s + l + |spec.hosts| && nodes[k].management == spec.management.base + k + 1
      && (k < s ==> nodes[k].name == spec.spines[k].name && nodes[k].role == Spine
                    && nodes[k].asn == Some(spec.spines[k].asn))
      && (s <= k < s + l ==> nodes[k].name == spec.leaves[k - s].name && nodes[k].role == Leaf
                             && nodes[k].asn == Some(spec.leaves[k - s].asn))
      && (k < s + l ==> nodes[k].loopback == Some(spec.loopback.base + k + 1))
      && (s + l <= k ==> nodes[k].name == spec.hosts[k - s - l].name && nodes[k].role == HostRole
                         && nodes[k].asn == None && nodes[k].loopback == None)
  {
    hide FabricLinks, AccessLinks, HostNetworks;
  }

  // ----- rendered switches -----

  lemma NetworkAttached(spec: Spec, i: nat, u: nat)
    requires Distinct(Names(spec)) && i < |spec.leaves| && IsSwitch(spec, u)
    ensures Attached(NetworkOf(spec, i), SwitchAt(spec, u).name)
         == if u == |spec.spines| + i && HasHost(spec, i) then [spec.hostSubnet(i + 1)] else []
  {
    var name := SwitchAt(spec, u).name;
    NamesDiffer(spec);
    hide Names, Distinct, HostOf;
    if HasHost(spec, i) {
      FlatMapAppend([], NetworkFor(spec.leaves[i].name, spec.hostSubnet(i + 1)), AttachedTo(name));
      assert [] + NetworkOf(spec, i) == NetworkOf(spec, i);
    }
  }

  lemma {:induction false} OnlyOwnNetwork(spec: Spec, n: nat, u: nat)
    requires Distinct(Names(spec)) && n <= |spec.leaves| && IsSwitch(spec, u)
    ensures Attached(HostNetworks(spec, n), SwitchAt(spec, u).name)
         == if |spec.spines| <= u < |spec.spines| + n && HasHost(spec, u - |spec.spines|)
            then [spec.hostSubnet(u - |spec.spines| + 1)] else []
  {
    hide FlatMap, Names, Distinct, HostOf, NetworkOf, HasHost, SwitchAt;
    var name := SwitchAt(spec, u).name;
    if n == 0 {
      NoneAttached(name);
    } else {
      OnlyOwnNetwork(spec, n - 1, u);
      NetworkAttached(spec, n - 1, u);
      FlatMapConcat(HostNetworks(spec, n - 1), NetworkOf(spec, n - 1), AttachedTo(name));
    }
  }

  lemma NoneAttached(name: string)
    ensures Attached([], name) == []
  {
  }

  /** The parts of leaf i's configuration. */
  lemma LeafConfigIs(spec: Spec, i: nat)
    requires Distinct(Names(spec)) && i < |spec.leaves|
    ensures var id := spec.loopback.base + |spec.spines| + i + 1;
      var own := [Prefix(id, 32)] + (if HasHost(spec, i) then [spec.hostSubnet(i + 1)] else []);
      Rendered(Allocated(spec), spec.leaves[i].name)
      == Some(Config(spec.leaves[i].asn, id, Uplinks(spec, i, |spec.spines|) + Downlinks(spec, i),
                     own, FabricPrefixes(Allocated(spec)), own, LeafNeighbors(spec, i, |spec.spines|)))
  {
    hide Rendered, SwitchEndpoints, NeighborsOf, Attached, Names, Distinct, FabricLinks, AccessLinks, Nodes;
    hide HostNetworks, FabricPrefixes, Uplinks, Downlinks, LeafNeighbors, HasHost;
    var u := |spec.spines| + i;
    assert SwitchAt(spec, u) == spec.leaves[i];
    ConfigIs(spec, u);
    LeafInterfacesAreExact(spec, i);
    LeafNeighborsAreExact(spec, i);
    OnlyOwnNetwork(spec, |spec.leaves|, u);
  }

  lemma LeafEndsAre(spec: Spec, i: nat, j: nat)
    requires i < |spec.leaves| && j < |spec.spines|
    ensures var ports, nbrs := Uplinks(spec, i, |spec.spines|), LeafNeighbors(spec, i, |spec.spines|);
      && |ports| == |spec.spines| == |nbrs|
      && ports[j].address == spec.p2p.base + 4 * i + 2 * j && ports[j].length == 31
      && (j == 0 ==> ports[j].port == Named(spec.interfaces.uplink1))
      && (j == 1 ==> ports[j].port == Named(spec.interfaces.uplink2))
      && nbrs[j] == Neighbor(spec.p2p.base + 4 * i + 2 * j + 1, spec.spines[j].asn)
  {
  }

  /**
    What is rendered for leaf i: its ASN, its loopback as router id, one /31 uplink and one neighbour for each spine,
    the host port if a host is attached, and only its own prefixes exported.
  */
  lemma RenderedLeafIs(spec: Spec, i: nat, j: nat)
    requires Distinct(Names(spec)) && i < |spec.leaves| && j < |spec.spines| <= 2
    ensures var rendered, base := Rendered(Allocated(spec), spec.leaves[i].name), spec.p2p.base + 4 * i;
      var n, id, subnet := |spec.spines|, spec.loopback.base + |spec.spines| + i + 1, spec.hostSubnet(i + 1);
      && rendered.Some? && rendered.value.asn == spec.leaves[i].asn && rendered.value.routerId == id
      && |rendered.value.interfaces| == n + (if Hosted(spec, i) then 1 else 0)
      && (j == 0 ==> rendered.value.interfaces[j] == Interface(Named(spec.interfaces.uplink1), base, 31))
      && (j == 1 ==> rendered.value.interfaces[j] == Interface(Named(spec.interfaces.uplink2), base + 2, 31))
      && (Hosted(spec, i) ==>
            rendered.value.interfaces[n] == Interface(Named(spec.interfaces.downlink), subnet.base + 1, 24))
      && |rendered.value.neighbors| == n
      && (j == 0 ==> rendered.value.neighbors[j] == Neighbor(base + 1, spec.spines[j].asn))
      && (j == 1 ==> rendered.value.neighbors[j] == Neighbor(base + 3, spec.spines[j].asn))
      && rendered.value.own == [Prefix(id, 32)] + (if Hosted(spec, i) then [subnet] else [])
      && rendered.value.exports == rendered.value.own
  {
    hide Rendered, Allocated, Names, Distinct, HostOf, FabricPrefixes, Uplinks, LeafNeighbors;
    LeafConfigIs(spec, i);
    LeafEndsAre(spec, i, j);
    HostedIff(spec.hosts, spec.leaves[i].name);
    hide Hosted;
  }

  /** The parts of spine j's configuration. */
  lemma SpineConfigIs(spec: Spec, j: nat)
    requires Distinct(Names(spec)) && j < |spec.spines|
    ensures var id, fabric := spec.loopback.base + j + 1, FabricPrefixes(Allocated(spec));
      Rendered(Allocated(spec), spec.spines[j].name)
      == Some(Config(spec.spines[j].asn, id, SpinePorts(spec, j, |spec.leaves|), [Prefix(id, 32)], fabric, fabric,
                     SpineNeighbors(spec, j, |spec.leaves|)))
  {
    hide Rendered, SwitchEndpoints, NeighborsOf, Attached, Names, Distinct, FabricLinks, AccessLinks, Nodes;
    hide HostNetworks, FabricPrefixes, SpinePorts, SpineNeighbors, HasHost;
    assert SwitchAt(spec, j) == spec.spines[j];
    ConfigIs(spec, j);
    SpineInterfacesAreExact(spec, j);
    SpineNeighborsAreExact(spec, j);
    OnlyOwnNetwork(spec, |spec.leaves|, j);
    assert [LoopbackAt(spec, j)] + [] == [LoopbackAt(spec, j)];
  }

  lemma SpineEndsAre(spec: Spec, j: nat, l: nat)
    requires j < |spec.spines| && l < |spec.leaves|
    ensures var ports, nbrs := SpinePorts(spec, j, |spec.leaves|), SpineNeighbors(spec, j, |spec.leaves|);
      && |ports| == |spec.leaves| == |nbrs|
      && ports[l] == Interface(Numbered(spec.interfaces.spinePortPrefix, l + 1), spec.p2p.base + 4 * l + 2 * j + 1, 31)
      && nbrs[l] == Neighbor(spec.p2p.base + 4 * l + 2 * j, spec.leaves[l].asn)
  {
  }

  /** What is rendered for spine j: a numbered /31 port and a neighbour for each leaf, and the fabric set exported. */
  lemma RenderedSpineIs(spec: Spec, j: nat, l: nat)
    requires Distinct(Names(spec)) && j < |spec.spines| && l < |spec.leaves|
    ensures var rendered := Rendered(Allocated(spec), spec.spines[j].name);
      var base, id := spec.p2p.base + 4 * l + 2 * j, spec.loopback.base + j + 1;
      && rendered.Some? && rendered.value.asn == spec.spines[j].asn && rendered.value.routerId == id
      && |rendered.value.interfaces| == |spec.leaves| == |rendered.value.neighbors|
      && rendered.value.interfaces[l]
         == Interface(Numbered(spec.interfaces.spinePortPrefix, l + 1), base + 1, 31)
      && rendered.value.neighbors[l] == Neighbor(base, spec.leaves[l].asn)
      && rendered.value.own == [Prefix(id, 32)] && rendered.value.exports == rendered.value.fabric
  {
    hide Rendered, Allocated, Names, Distinct, FabricPrefixes, SpinePorts, SpineNeighbors;
    SpineConfigIs(spec, j);
    SpineEndsAre(spec, j, l);
  }

  lemma InFabricIff(spec: Spec, p: Prefix)
    ensures InFabric(spec, p) <==>
      || (p.length == 32 && spec.loopback.base < p.base <= spec.loopback.base + |spec.spines| + |spec.leaves|)
      || exists i: nat | i < |spec.leaves| :: Hosted(spec, i) && p == spec.hostSubnet(i + 1)
  {
    forall i: nat | i < |spec.leaves| ensures HostOf(spec.hosts, spec.leaves[i].name).Some? <==> Hosted(spec, i) {
      HostedIff(spec.hosts, spec.leaves[i].name);
    }
    hide HostOf, Hosted;
    if p.length == 32 && spec.loopback.base < p.base <= spec.loopback.base + |spec.spines| + |spec.leaves| {
      var v: nat := p.base - spec.loopback.base - 1;
      assert IsSwitch(spec, v) && Own(spec, v, p);
    }
    if i: nat :| i < |spec.leaves| && Hosted(spec, i) && p == spec.hostSubnet(i + 1) {
      assert IsSwitch(spec, |spec.spines| + i) && Own(spec, |spec.spines| + i, p);
    }
    if InFabric(spec, p) {
      var v: nat :| IsSwitch(spec, v) && Own(spec, v, p);
      if p != LoopbackAt(spec, v) { assert Hosted(spec, v - |spec.spines|); }
    }
  }

  /** The imported set, on every switch: every switch's loopback and every hosted leaf's subnet. */
  lemma ImportedSetIs(spec: Spec, u: nat, p: Prefix)
    requires Distinct(Names(spec)) && IsSwitch(spec, u)
    ensures var rendered := Rendered(Allocated(spec), SwitchAt(spec, u).name);
      && rendered.Some?
      && (p in rendered.value.fabric <==>
            || (p.length == 32 && spec.loopback.base < p.base <= spec.loopback.base + |spec.spines| + |spec.leaves|)
            || exists i: nat | i < |spec.leaves| :: Hosted(spec, i) && p == spec.hostSubnet(i + 1))
  {
    PoliciesAreExact(spec, u, p);
    InFabricIff(spec, p);
    hide Rendered, Names, Distinct, Hosted, InFabric, Allocated;
  }
}
