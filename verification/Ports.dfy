/** The rendered data interfaces of each switch, and when one interface is rendered twice. */
module Ports {
  import opened Sequences
  import opened Fabric
  import opened Validation
  import opened Routing

  // ----- a leaf's interfaces -----

  function UplinkPort(spec: Spec, i: nat, j: nat): Interface {
    Interface(Named(Uplink(spec, j)), LeafAddress(spec, i, j), 31)
  }

  /** One uplink for each of the first n spines. */
  function Uplinks(spec: Spec, i: nat, n: nat): seq<Interface> {
    seq(n, j requires 0 <= j < n => UplinkPort(spec, i, j))
  }

  predicate HasHost(spec: Spec, i: nat)
    requires i < |spec.leaves|
  {
    HostOf(spec.hosts, spec.leaves[i].name).Some?
  }

  /** The host-facing port, if a host is attached. */
  function Downlinks(spec: Spec, i: nat): seq<Interface>
    requires i < |spec.leaves|
  {
    if HasHost(spec, i) then [Interface(Named(spec.interfaces.downlink), spec.hostSubnet(i + 1).base + 1, 24)] else []
  }

  function SpinePort(spec: Spec, l: nat, j: nat): Interface {
    Interface(Numbered(spec.interfaces.spinePortPrefix, l + 1), SpineAddress(spec, l, j), 31)
  }

  /** One numbered port for each leaf. */
  function SpinePorts(spec: Spec, j: nat, n: nat): seq<Interface> {
    seq(n, l requires 0 <= l < n => SpinePort(spec, l, j))
  }

  lemma {:induction false} HostIsListed(hosts: seq<Host>, leaf: string)
    requires HostOf(hosts, leaf).Some?
    ensures exists k: nat :: k < |hosts| && HostOf(hosts, leaf) == Some(hosts[k])
  {
    var n := |hosts| - 1;
    if hosts[n].leaf != leaf { HostIsListed(hosts[..n], leaf); }
  }

  /** No host shares its name with a switch. */
  lemma HostNamesDiffer(spec: Spec, k: nat, u: nat)
    requires Distinct(Names(spec)) && k < |spec.hosts| && u < |Switches(spec)|
    ensures spec.hosts[k].name != Switches(spec)[u].name
  {
    var s := |Switches(spec)|;
    assert Names(spec)[u] == Switches(spec)[u].name && Names(spec)[s + k] == spec.hosts[k].name;
  }

  lemma LeafEnd(spec: Spec, l: nat, k: nat, i: nat)
    requires Distinct(Names(spec)) && l < |spec.leaves| && i < |spec.leaves| && k < |spec.spines|
    ensures EndsOn(spec.leaves[i].name)(LinkOf(spec, l, k)) == if l == i then [UplinkPort(spec, i, k)] else []
  {
    NamesDiffer(spec);
    hide Names, Distinct;
  }

  lemma SpineEnd(spec: Spec, l: nat, k: nat, j: nat)
    requires Distinct(Names(spec)) && l < |spec.leaves| && j < |spec.spines| && k < |spec.spines|
    ensures EndsOn(spec.spines[j].name)(LinkOf(spec, l, k)) == if k == j then [SpinePort(spec, l, j)] else []
  {
    NamesDiffer(spec);
    hide Names, Distinct;
  }

  lemma LastLink<U>(spec: Spec, l: nat, n: nat, f: Link -> seq<U>)
    requires l < |spec.leaves| && 0 < n <= |spec.spines|
    ensures FlatMap(LeafLinks(spec, l, n), f) == FlatMap(LeafLinks(spec, l, n - 1), f) + f(LinkOf(spec, l, n - 1))
  {
    assert LeafLinks(spec, l, n) == LeafLinks(spec, l, n - 1) + [LinkOf(spec, l, n - 1)];
    FlatMapAppend(LeafLinks(spec, l, n - 1), LinkOf(spec, l, n - 1), f);
    hide FlatMap;
  }

  lemma LastUplink(spec: Spec, i: nat, n: nat)
    requires n > 0
    ensures Uplinks(spec, i, n) == Uplinks(spec, i, n - 1) + [UplinkPort(spec, i, n - 1)]
  {
  }

  lemma {:induction false} PortsFromLeaf(spec: Spec, l: nat, n: nat, i: nat)
    requires Distinct(Names(spec)) && l < |spec.leaves| && i < |spec.leaves| && n <= |spec.spines|
    ensures FlatMap(LeafLinks(spec, l, n), EndsOn(spec.leaves[i].name)) == if l == i then Uplinks(spec, i, n) else []
  {
    hide Names, Distinct, EndsOn, LinkOf, UplinkPort, SpinePort;
    if n == 0 {
      assert LeafLinks(spec, l, 0) == [] && Uplinks(spec, i, 0) == [];
    } else {
      hide *;
      PortsFromLeaf(spec, l, n - 1, i);
      LeafEnd(spec, l, n - 1, i);
      LastUplink(spec, i, n);
      LastLink(spec, l, n, EndsOn(spec.leaves[i].name));
    }
  }

  lemma {:induction false} PortsFromSpine(spec: Spec, l: nat, n: nat, j: nat)
    requires Distinct(Names(spec)) && l < |spec.leaves| && j < |spec.spines| && n <= |spec.spines|
    ensures FlatMap(LeafLinks(spec, l, n), EndsOn(spec.spines[j].name)) == if j < n then [SpinePort(spec, l, j)] else []
  {
    hide Names, Distinct, EndsOn, LinkOf, UplinkPort, SpinePort;
    if n == 0 {
      assert LeafLinks(spec, l, 0) == [];
    } else {
      hide *;
      PortsFromSpine(spec, l, n - 1, j);
      SpineEnd(spec, l, n - 1, j);
      LastLink(spec, l, n, EndsOn(spec.spines[j].name));
    }
  }

  lemma SwitchNamesDiffer(spec: Spec, u: nat, v: nat)
    requires Distinct(Names(spec)) && u < |Switches(spec)| && v < |Switches(spec)| && u != v
    ensures Switches(spec)[u].name != Switches(spec)[v].name
  {
    assert Names(spec)[u] == Switches(spec)[u].name && Names(spec)[v] == Switches(spec)[v].name;
    assert u < v || v < u;
  }

  /** An access link gives its leaf the downlink and no other switch anything. */
  lemma EndsOfAccess(spec: Spec, l: nat, u: nat)
    requires Distinct(Names(spec)) && l < |spec.leaves| && u < |Switches(spec)|
    ensures FlatMap(AccessOf(spec, l), EndsOn(Switches(spec)[u].name))
         == if u == |spec.spines| + l then Downlinks(spec, l) else []
  {
    var f := EndsOn(Switches(spec)[u].name);
    if HasHost(spec, l) {
      var lk := AccessOf(spec, l)[0];
      HostIsListed(spec.hosts, spec.leaves[l].name);
      var k: nat :| k < |spec.hosts| && HostOf(spec.hosts, spec.leaves[l].name) == Some(spec.hosts[k]);
      HostNamesDiffer(spec, k, u);
      if u != |spec.spines| + l { SwitchNamesDiffer(spec, u, |spec.spines| + l); }
      FlatMapAppend([], lk, f);
      hide FlatMap, HostOf, Names, Distinct;
      assert AccessOf(spec, l) == [] + [lk];
    }
  }

  lemma LastAccess<U>(spec: Spec, n: nat, f: Link -> seq<U>)
    requires 0 < n <= |spec.leaves|
    ensures FlatMap(AccessLinks(spec, n), f) == FlatMap(AccessLinks(spec, n - 1), f) + FlatMap(AccessOf(spec, n - 1), f)
  {
    FlatMapConcat(AccessLinks(spec, n - 1), AccessOf(spec, n - 1), f);
    hide FlatMap, AccessOf;
  }

  lemma NoAccess<U>(spec: Spec, f: Link -> seq<U>)
    ensures FlatMap(AccessLinks(spec, 0), f) == []
  {
  }

  lemma {:induction false} PortsFromAccess(spec: Spec, n: nat, u: nat)
    requires Distinct(Names(spec)) && n <= |spec.leaves| && u < |Switches(spec)|
    ensures FlatMap(AccessLinks(spec, n), EndsOn(Switches(spec)[u].name))
         == if |spec.spines| <= u < |spec.spines| + n then Downlinks(spec, u - |spec.spines|) else []
  {
    hide *;
    if n == 0 {
      NoAccess(spec, EndsOn(Switches(spec)[u].name));
    } else {
      PortsFromAccess(spec, n - 1, u);
      EndsOfAccess(spec, n - 1, u);
      LastAccess(spec, n, EndsOn(Switches(spec)[u].name));
    }
  }

  lemma SwitchNumbers(spec: Spec, k: nat)
    ensures |Switches(spec)| == |spec.spines| + |spec.leaves|
    ensures k < |spec.spines| ==> Switches(spec)[k] == spec.spines[k]
    ensures k < |spec.leaves| ==> Switches(spec)[|spec.spines| + k] == spec.leaves[k]
  {
  }

  /** The ports of a switch, from the fabric links and from the access links. */
  lemma PortsSplit(spec: Spec, u: nat)
    requires Distinct(Names(spec)) && u < |Switches(spec)|
    ensures SwitchEndpoints(Allocated(spec).links, Switches(spec)[u].name)
         == LeafWise(spec, |spec.leaves|, EndsOn(Switches(spec)[u].name))
            + if |spec.spines| <= u then Downlinks(spec, u - |spec.spines|) else []
  {
    var n, f := |spec.leaves|, EndsOn(Switches(spec)[u].name);
    PortsFromAccess(spec, n, u);
    FlatMapConcat(FabricLinks(spec, n), AccessLinks(spec, n), f);
    LeafByLeaf(spec, n, f);
    hide FlatMap, LeafWise, Names, Distinct, AccessLinks, FabricLinks, EndsOn, Downlinks, Nodes, HostNetworks;
  }

  /** A leaf's interfaces are exactly its uplinks, one for each spine, and its downlink if a host is attached. */
  lemma LeafInterfacesAreExact(spec: Spec, i: nat)
    requires Distinct(Names(spec)) && i < |spec.leaves|
    ensures SwitchEndpoints(Allocated(spec).links, spec.leaves[i].name)
      == Uplinks(spec, i, |spec.spines|) + Downlinks(spec, i)
  {
    hide *;
    SwitchNumbers(spec, i);
    var f, up := EndsOn(spec.leaves[i].name), Uplinks(spec, i, |spec.spines|);
    PortsSplit(spec, |spec.spines| + i);
    forall l | 0 <= l < |spec.leaves|
      ensures FlatMap(LeafLinks(spec, l, |spec.spines|), f) == if l == i then up else []
    {
      PortsFromLeaf(spec, l, |spec.spines|, i);
    }
    OnlyLeaf(spec, |spec.leaves|, i, f, up);
  }

  lemma SpinePortsOf(spec: Spec, j: nat, n: nat)
    ensures var ports := SpinePorts(spec, j, n);
      |ports| == n && ports[..n] == ports && forall l | 0 <= l < n :: ports[l] == SpinePort(spec, l, j)
  {
  }

  /** A spine's interfaces are exactly one numbered port for each leaf. */
  lemma SpineInterfacesAreExact(spec: Spec, j: nat)
    requires Distinct(Names(spec)) && j < |spec.spines|
    ensures SwitchEndpoints(Allocated(spec).links, spec.spines[j].name) == SpinePorts(spec, j, |spec.leaves|)
  {
    hide *;
    SwitchNumbers(spec, j);
    var f, ports := EndsOn(spec.spines[j].name), SpinePorts(spec, j, |spec.leaves|);
    PortsSplit(spec, j);
    SpinePortsOf(spec, j, |spec.leaves|);
    forall l | 0 <= l < |spec.leaves| ensures FlatMap(LeafLinks(spec, l, |spec.spines|), f) == [ports[l]] {
      PortsFromSpine(spec, l, |spec.spines|, j);
    }
    OnePerLeaf(spec, |spec.leaves|, f, ports);
    assert ports + [] == ports;
  }

  // ----- one address for each interface -----

  /** No interface is rendered with two addresses. */
  ghost predicate PortsDiffer(ports: seq<Interface>) {
    forall x, y | 0 <= x < y < |ports| :: ports[x].port != ports[y].port
  }

  /** A spine never renders one interface twice. */
  lemma SpinePortsDiffer(spec: Spec, j: nat)
    requires Distinct(Names(spec)) && j < |spec.spines|
    ensures PortsDiffer(SwitchEndpoints(Allocated(spec).links, spec.spines[j].name))
  {
    SpineInterfacesAreExact(spec, j);
    hide SwitchEndpoints, Allocated, Names, Distinct;
  }

  /** The interface names a leaf uses are all different. */
  predicate LeafNamesDiffer(spec: Spec, hosted: bool) {
    var f := spec.interfaces;
    && (|spec.spines| >= 2 ==> f.uplink1 != f.uplink2)
    && (hosted && |spec.spines| >= 1 ==> f.downlink != f.uplink1)
    && (hosted && |spec.spines| >= 2 ==> f.downlink != f.uplink2)
  }

  /**
    A leaf renders one interface twice exactly when two of the interface names it uses coincide, which the validator
    does not look at.
  */
  lemma LeafPortsDifferIff(spec: Spec, i: nat)
    requires Distinct(Names(spec)) && i < |spec.leaves| && |spec.spines| <= 2
    ensures PortsDiffer(SwitchEndpoints(Allocated(spec).links, spec.leaves[i].name))
      <==> LeafNamesDiffer(spec, HasHost(spec, i))
  {
    LeafInterfacesAreExact(spec, i);
    hide SwitchEndpoints, Allocated, Names, Distinct, HasHost;
    var n, ports := |spec.spines|, Uplinks(spec, i, |spec.spines|) + Downlinks(spec, i);
    assert |ports| == n + if HasHost(spec, i) then 1 else 0;
    if n >= 1 { assert ports[0].port == Named(spec.interfaces.uplink1); }
    if n == 2 { assert ports[1].port == Named(spec.interfaces.uplink2); }
    if HasHost(spec, i) { assert ports[n].port == Named(spec.interfaces.downlink); }
  }
}
