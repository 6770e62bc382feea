/** Which errors the fabric validator reports, each written out. */
module FabricErrors {
  import opened Sequences
  import opened Fabric
  import opened Validation

  /** The name of node k: spines, then leaves, then hosts. */
  function NameAt(spec: Spec, k: nat): string
    requires k < |spec.spines| + |spec.leaves| + |spec.hosts|
  {
    if k < |spec.spines| then spec.spines[k].name
    else if k < |spec.spines| + |spec.leaves| then spec.leaves[k - |spec.spines|].name
    else spec.hosts[k - |spec.spines| - |spec.leaves|].name
  }

  function AsnAt(spec: Spec, k: nat): int
    requires k < |spec.spines| + |spec.leaves|
  {
    if k < |spec.spines| then spec.spines[k].asn else spec.leaves[k - |spec.spines|].asn
  }

  /** Nothing but the characters that count as spaces. */
  ghost predicate Spaces(v: string) {
    forall k | 0 <= k < |v| ::
      v[k] as int in {9, 10, 11, 12, 13, 28, 29, 30, 31, 32, 0x85, 0xa0, 0x1680, 0x2000, 0x2001, 0x2002, 0x2003, 0x2004,
                      0x2005, 0x2006, 0x2007, 0x2008, 0x2009, 0x200a, 0x2028, 0x2029, 0x202f, 0x205f, 0x3000}
  }

  lemma BlankIs(v: string)
    ensures Blank(v) <==> Spaces(v)
  {
    if Spaces(v) {
      forall c | c in v ensures Whitespace(c) {
        var k :| 0 <= k < |v| && v[k] == c;
      }
    }
    if Blank(v) {
      forall k | 0 <= k < |v| ensures Whitespace(v[k]) { assert v[k] in v; }
    }
  }

  /** What each error that is found before allocation says of the spec. */
  ghost predicate Applies(spec: Spec, e: Error) {
    match e
    case DuplicateName(x) =>
      exists j: nat, k: nat :: j < k < |spec.spines| + |spec.leaves| + |spec.hosts|
        && NameAt(spec, j) == x && NameAt(spec, k) == x
    case DuplicateAsn(x) =>
      exists j: nat, k: nat :: j < k < |spec.spines| + |spec.leaves| && AsnAt(spec, j) == x && AsnAt(spec, k) == x
    case AsnOutOfRange(name) =>
      exists sw :: (sw in spec.spines || sw in spec.leaves) && sw.name == name && (sw.asn < 64512 || sw.asn > 65534)
    case UnknownLeaf(host) =>
      exists h | h in spec.hosts :: h.name == host && forall l | l in spec.leaves :: l.name != h.leaf
    case BlankInterface(v) =>
      && (v == spec.interfaces.uplink1 || v == spec.interfaces.uplink2 || v == spec.interfaces.downlink
          || v == spec.interfaces.spinePortPrefix || v == spec.interfaces.hostPort)
      && Spaces(v)
    case BadPool(p) => (p == spec.p2p || p == spec.loopback || p == spec.management) && p.base % Pow2(p.hostBits) != 0
    case BadMtu => spec.mtu <= 0
    case BadCapacity => spec.capacity <= 0
    case _ => false
  }

  lemma {:induction false} RepeatedIff<T(!new)>(items: seq<T>, x: T)
    ensures x in Repeats(items) <==> exists j: nat, k: nat :: j < k < |items| && items[j] == x && items[k] == x
  {
    if items != [] {
      var n := |items| - 1;
      RepeatedIff(items[..n], x);
      if x in Repeats(items[..n]) {
        var j: nat, k: nat :| j < k < n && items[..n][j] == x && items[..n][k] == x;
        assert items[j] == x && items[k] == x;
      }
      if x == items[n] && x in items[..n] {
        var j: nat :| j < n && items[..n][j] == x;
        assert items[j] == x;
      }
      if j: nat, k: nat :| j < k < |items| && items[j] == x && items[k] == x {
        assert items[..n][j] == x;
        if k < n { assert items[..n][k] == x; }
      }
    }
  }

  lemma NamesAre(spec: Spec)
    ensures |Names(spec)| == |spec.spines| + |spec.leaves| + |spec.hosts|
    ensures forall k: nat | k < |Names(spec)| :: Names(spec)[k] == NameAt(spec, k)
    ensures |Asns(spec)| == |spec.spines| + |spec.leaves|
    ensures forall k: nat | k < |Asns(spec)| :: Asns(spec)[k] == AsnAt(spec, k)
  {
  }

  lemma NameRepeats(spec: Spec, e: Error)
    ensures e in FlatMap(Repeats(Names(spec)), NameError()) <==> e.DuplicateName? && Applies(spec, e)
  {
    hide Names, Asns, NameAt, AsnAt, Repeats, FlatMap;
    NamesAre(spec);
    FlatMapMember(Repeats(Names(spec)), NameError(), e);
    if e.DuplicateName? {
      RepeatedIff(Names(spec), e.name);
      assert e in NameError()(e.name);
    }
  }

  lemma AsnRepeats(spec: Spec, e: Error)
    ensures e in FlatMap(Repeats(Asns(spec)), AsnError()) <==> e.DuplicateAsn? && Applies(spec, e)
  {
    hide Names, Asns, NameAt, AsnAt, Repeats, FlatMap;
    NamesAre(spec);
    FlatMapMember(Repeats(Asns(spec)), AsnError(), e);
    if e.DuplicateAsn? {
      RepeatedIff(Asns(spec), e.asn);
      assert e in AsnError()(e.asn);
    }
  }

  lemma RangesAndHosts(spec: Spec, e: Error)
    ensures e in FlatMap(Switches(spec), RangeError()) <==> e.AsnOutOfRange? && Applies(spec, e)
    ensures e in FlatMap(spec.hosts, HostError(spec)) <==> e.UnknownLeaf? && Applies(spec, e)
  {
    FlatMapMember(Switches(spec), RangeError(), e);
    FlatMapMember(spec.hosts, HostError(spec), e);
    assert forall sw :: sw in Switches(spec) <==> sw in spec.spines || sw in spec.leaves;
    hide FlatMap, Switches;
    forall sw: Switch
      ensures e in RangeError()(sw) <==> e == AsnOutOfRange(sw.name) && (sw.asn < 64512 || sw.asn > 65534)
    {
    }
    forall h: Host
      ensures e in HostError(spec)(h)
        <==> e == UnknownLeaf(h.name) && forall l | l in spec.leaves :: l.name != h.leaf
    {
    }
  }

  lemma InterfacesAndPools(spec: Spec, e: Error)
    ensures e in FlatMap(InterfaceValues(spec.interfaces), InterfaceError()) <==> e.BlankInterface? && Applies(spec, e)
    ensures e in FlatMap(Pools(spec), PoolError()) <==> e.BadPool? && Applies(spec, e)
  {
    FlatMapMember(InterfaceValues(spec.interfaces), InterfaceError(), e);
    FlatMapMember(Pools(spec), PoolError(), e);
    forall v: string ensures Blank(v) <==> Spaces(v) { BlankIs(v); }
    hide FlatMap, Blank, Spaces;
    assert forall v: string :: e in InterfaceError()(v) <==> e == BlankInterface(v) && Blank(v);
    assert forall p: Pool :: e in PoolError()(p) <==> e == BadPool(p) && p.base % Pow2(p.hostBits) != 0;
  }

  /** Before allocation the validator reports exactly the errors that apply. */
  lemma BasicErrorsAre(spec: Spec, e: Error)
    ensures e in BasicErrors(spec) <==> Applies(spec, e)
  {
    NameRepeats(spec, e);
    AsnRepeats(spec, e);
    RangesAndHosts(spec, e);
    InterfacesAndPools(spec, e);
    BasicParts(spec, e);
    hide BasicErrors, FlatMap, Repeats;
    if !(e.DuplicateName? || e.DuplicateAsn? || e.AsnOutOfRange? || e.UnknownLeaf? || e.BlankInterface? || e.BadPool?) {
      assert e in BasicErrors(spec) <==> (e == BadMtu && spec.mtu <= 0) || (e == BadCapacity && spec.capacity <= 0);
    }
  }

  lemma BasicParts(spec: Spec, e: Error)
    ensures e in BasicErrors(spec) <==>
      || e in FlatMap(Repeats(Names(spec)), NameError()) || e in FlatMap(Repeats(Asns(spec)), AsnError())
      || e in FlatMap(Switches(spec), RangeError()) || e in FlatMap(spec.hosts, HostError(spec))
      || e in FlatMap(InterfaceValues(spec.interfaces), InterfaceError()) || e in FlatMap(Pools(spec), PoolError())
      || (e == BadMtu && spec.mtu <= 0) || (e == BadCapacity && spec.capacity <= 0)
  {
    hide FlatMap, Repeats, Names, Asns, Switches, InterfaceValues, Pools;
  }

  // ----- after the basic checks -----

  /** Two subnets share an address: each starts before the other ends. */
  ghost predicate Share(a: Prefix, b: Prefix) {
    && a.base < b.base + (if b.length <= 32 then Pow2(32 - b.length) else 1)
    && b.base < a.base + (if a.length <= 32 then Pow2(32 - a.length) else 1)
  }

  /** Host networks j and k share an address, and the error says so. */
  ghost predicate Clash(nets: seq<HostNetwork>, j: nat, k: nat, e: Error) {
    && j < k < |nets| && Share(nets[j].subnet, nets[k].subnet)
    && e == Overlapping(nets[j].subnet, nets[k].subnet)
  }

  lemma HeadClashes(nets: seq<HostNetwork>, e: Error)
    requires nets != []
    ensures e in FlatMap(nets[1..], OverlapError(nets[0])) <==> exists k: nat :: Clash(nets, 0, k, e)
  {
    var rest := nets[1..];
    FlatMapMember(rest, OverlapError(nets[0]), e);
    hide FlatMap;
    forall b: HostNetwork
      ensures e in OverlapError(nets[0])(b)
        <==> Share(nets[0].subnet, b.subnet) && e == Overlapping(nets[0].subnet, b.subnet)
    {
    }
    hide Share, OverlapError;
    if b :| b in rest && e in OverlapError(nets[0])(b) {
      var k: nat :| k < |rest| && rest[k] == b;
      assert Clash(nets, 0, k + 1, e);
    }
    if k: nat :| Clash(nets, 0, k, e) {
      assert rest[k - 1] == nets[k];
    }
  }

  lemma RestClashes(nets: seq<HostNetwork>, e: Error)
    requires nets != []
    ensures (exists j: nat, k: nat :: Clash(nets, j, k, e))
       <==> (exists k: nat :: Clash(nets, 0, k, e)) || exists j: nat, k: nat :: Clash(nets[1..], j, k, e)
  {
    hide Share;
    if j: nat, k: nat :| Clash(nets[1..], j, k, e) { assert Clash(nets, j + 1, k + 1, e); }
    if j: nat, k: nat :| Clash(nets, j, k, e) {
      if j > 0 { assert Clash(nets[1..], j - 1, k - 1, e); }
    }
  }

  lemma {:induction false} OverlapsAre(nets: seq<HostNetwork>, e: Error)
    ensures e in OverlapErrors(nets) <==> exists j: nat, k: nat :: Clash(nets, j, k, e)
  {
    if nets != [] {
      OverlapsAre(nets[1..], e);
      HeadClashes(nets, e);
      RestClashes(nets, e);
      OverlapHead(nets);
      hide OverlapErrors, FlatMap, Clash;
    }
  }

  lemma OverlapHead(nets: seq<HostNetwork>)
    requires nets != []
    ensures OverlapErrors(nets) == FlatMap(nets[1..], OverlapError(nets[0])) + OverlapErrors(nets[1..])
  {
  }

  /**
    The validator's answer with at most two spines. Any basic error stops it there. Otherwise a pool with fewer address
    pairs than leaf-spine links is the only error, and with enough of them the errors are the shared host subnets.
  */
  lemma AnswerIs(spec: Spec, e: Error)
    requires |spec.spines| <= 2
    ensures var answer := ValidationErrors(spec);
      var basic := exists x :: Applies(spec, x);
      var needed, available := |spec.leaves| * |spec.spines|, Pow2(spec.p2p.hostBits) / 2;
      && answer.Some?
      && (basic ==> (e in answer.value <==> Applies(spec, e)))
      && (!basic && needed > available ==> answer.value == [PoolTooSmall(available, needed)])
      && (!basic && needed <= available ==>
            var nets := Allocated(spec).hostNetworks;
            e in answer.value <==> exists j: nat, k: nat :: Clash(nets, j, k, e))
  {
    hide *;
    AnswerParts(spec);
    BasicErrorsAre(spec, e);
    BasicNone(spec);
    OverlapsAre(Allocated(spec).hostNetworks, e);
  }

  lemma AnswerParts(spec: Spec)
    requires |spec.spines| <= 2
    ensures var needed, available := |spec.leaves| * |spec.spines|, Pow2(spec.p2p.hostBits) / 2;
      ValidationErrors(spec)
      == Some(if BasicErrors(spec) != [] then BasicErrors(spec)
              else if needed > available then [PoolTooSmall(available, needed)]
              else OverlapErrors(Allocated(spec).hostNetworks))
  {
    if BasicErrors(spec) == [] { PoolsParse(spec); }
    OnlyOverlaps(spec);
    hide BasicErrors, CollisionErrors, OverlapErrors, Allocated, Pow2;
  }

  lemma BasicNone(spec: Spec)
    ensures BasicErrors(spec) == [] <==> !exists x :: Applies(spec, x)
  {
    forall x ensures x in BasicErrors(spec) <==> Applies(spec, x) { BasicErrorsAre(spec, x); }
    hide BasicErrors, Applies;
    if BasicErrors(spec) != [] { assert BasicErrors(spec)[0] in BasicErrors(spec); }
  }

  lemma PoolsParse(spec: Spec)
    requires BasicErrors(spec) == []
    ensures spec.p2p.Parses() && spec.loopback.Parses() && spec.management.Parses()
  {
    forall p | p == spec.p2p || p == spec.loopback || p == spec.management ensures p.Parses() {
      BasicErrorsAre(spec, BadPool(p));
    }
  }

  lemma OnlyOverlaps(spec: Spec)
    requires |spec.spines| <= 2
    ensures CollisionErrors(Allocated(spec)) == OverlapErrors(Allocated(spec).hostNetworks)
  {
    hide FlatMap, Repeats, Distinct, Loopbacks, Managements, P2pAddresses, OverlapErrors, Nodes, HostNetworks;
    hide FabricLinks, AccessLinks;
    NodeAddressesDiffer(spec);
    LinkAddressesDiffer(spec);
    NoRepeats(Loopbacks(Nodes(spec)), LoopbackError());
    NoRepeats(Managements(Nodes(spec)), ManagementError());
    NoRepeats(P2pAddresses(Allocated(spec).links), P2pError());
  }
}
