/** Static validation of a fabric spec, and what an empty error list guarantees. */
module Validation {
  import opened Sequences
  import opened Fabric

  datatype Error =
    | DuplicateName(name: string) | DuplicateAsn(asn: int) | AsnOutOfRange(name: string) | UnknownLeaf(host: string)
    | BlankInterface(value: string) | BadPool(pool: Pool) | BadMtu | BadCapacity
    | PoolTooSmall(available: nat, needed: nat)
    | DuplicateLoopback(address: int) | DuplicateManagement(address: int) | DuplicateP2p(address: int)
    | Overlapping(a: Prefix, b: Prefix)

  predicate Distinct<T(==)>(items: seq<T>) { forall i, j | 0 <= i < j < |items| :: items[i] != items[j] }

  /** What str.strip removes: the controls 9 to 13 and 28 to 31, the space, and the other spaces of Unicode. */
  predicate Whitespace(c: char) {
    var n := c as int;
    9 <= n <= 13 || 28 <= n <= 32 || n == 0x85 || n == 0xa0 || n == 0x1680 || 0x2000 <= n <= 0x200a
    || n == 0x2028 || n == 0x2029 || n == 0x202f || n == 0x205f || n == 0x3000
  }

  predicate Blank(s: string) { forall c | c in s :: Whitespace(c) }

  function Switches(spec: Spec): seq<Switch> { spec.spines + spec.leaves }

  function Names(spec: Spec): seq<string> {
    seq(|Switches(spec)|, i requires 0 <= i < |Switches(spec)| => Switches(spec)[i].name)
    + seq(|spec.hosts|, i requires 0 <= i < |spec.hosts| => spec.hosts[i].name)
  }

  function Asns(spec: Spec): seq<int> {
    seq(|Switches(spec)|, i requires 0 <= i < |Switches(spec)| => Switches(spec)[i].asn)
  }

  function InterfaceValues(f: Interfaces): seq<string> {
    [f.uplink1, f.uplink2, f.downlink, f.spinePortPrefix, f.hostPort]
  }

  function Pools(spec: Spec): seq<Pool> { [spec.p2p, spec.loopback, spec.management] }

  predicate PrivateAsn(asn: int) { 64512 <= asn <= 65534 }

  predicate KnownLeaf(spec: Spec, h: Host) { exists l | l in spec.leaves :: l.name == h.leaf }

  /** Everything checked before allocation. */
  ghost predicate Structural(spec: Spec) {
    && Distinct(Names(spec)) && Distinct(Asns(spec))
    && (forall sw | sw in Switches(spec) :: PrivateAsn(sw.asn))
    && (forall h | h in spec.hosts :: KnownLeaf(spec, h))
    && (forall v | v in InterfaceValues(spec.interfaces) :: !Blank(v))
    && (forall p | p in Pools(spec) :: p.Parses())
    && spec.mtu > 0 && spec.capacity > 0
    && |spec.leaves| * |spec.spines| <= spec.p2p.Size() / 2
  }

  function LoopbackOf(): Node -> seq<int> { (n: Node) => if n.loopback.Some? then [n.loopback.value] else [] }

  function Loopbacks(nodes: seq<Node>): seq<int> { FlatMap(nodes, LoopbackOf()) }

  function Managements(nodes: seq<Node>): seq<int> {
    seq(|nodes|, i requires 0 <= i < |nodes| => nodes[i].management)
  }

  function P2pEnds(): Link -> seq<int> {
    (lk: Link) => if lk.kind == FabricLink then [lk.a.address, lk.b.address] else []
  }

  function P2pAddresses(links: seq<Link>): seq<int> { FlatMap(links, P2pEnds()) }

  function PrefixSize(p: Prefix): nat { if p.length <= 32 then Pow2(32 - p.length) else 1 }

  predicate Overlaps(a: Prefix, b: Prefix) { a.base < b.base + PrefixSize(b) && b.base < a.base + PrefixSize(a) }

  ghost predicate Disjoint(nets: seq<HostNetwork>) {
    forall i, j | 0 <= i < j < |nets| :: !Overlaps(nets[i].subnet, nets[j].subnet)
  }

  ghost predicate NoCollisions(topo: Topology) {
    && Distinct(Loopbacks(topo.nodes)) && Distinct(Managements(topo.nodes)) && Distinct(P2pAddresses(topo.links))
    && Disjoint(topo.hostNetworks)
  }

  ghost predicate Accepted(spec: Spec) { Structural(spec) && NoCollisions(Allocated(spec)) }

  // ----- the error list -----

  /** Every item that occurred before, once per repetition. */
  function Repeats<T(==)>(items: seq<T>): seq<T> {
    if items == [] then []
    else
      var front, last := items[..|items| - 1], items[|items| - 1];
      Repeats(front) + if last in front then [last] else []
  }

  function NameError(): string -> seq<Error> { (x: string) => [DuplicateName(x)] }
  function AsnError(): int -> seq<Error> { (x: int) => [DuplicateAsn(x)] }
  function RangeError(): Switch -> seq<Error> {
    (sw: Switch) => if PrivateAsn(sw.asn) then [] else [AsnOutOfRange(sw.name)]
  }
  function HostError(spec: Spec): Host -> seq<Error> {
    (h: Host) => if KnownLeaf(spec, h) then [] else [UnknownLeaf(h.name)]
  }
  function InterfaceError(): string -> seq<Error> { (v: string) => if Blank(v) then [BlankInterface(v)] else [] }
  function PoolError(): Pool -> seq<Error> { (p: Pool) => if p.Parses() then [] else [BadPool(p)] }
  function LoopbackError(): int -> seq<Error> { (a: int) => [DuplicateLoopback(a)] }
  function ManagementError(): int -> seq<Error> { (a: int) => [DuplicateManagement(a)] }
  function P2pError(): int -> seq<Error> { (a: int) => [DuplicateP2p(a)] }
  function OverlapError(a: HostNetwork): HostNetwork -> seq<Error> {
    (b: HostNetwork) => if Overlaps(a.subnet, b.subnet) then [Overlapping(a.subnet, b.subnet)] else []
  }

  function BasicErrors(spec: Spec): seq<Error> {
    FlatMap(Repeats(Names(spec)), NameError()) + FlatMap(Repeats(Asns(spec)), AsnError())
    + FlatMap(Switches(spec), RangeError()) + FlatMap(spec.hosts, HostError(spec))
    + FlatMap(InterfaceValues(spec.interfaces), InterfaceError()) + FlatMap(Pools(spec), PoolError())
    + (if spec.mtu <= 0 then [BadMtu] else []) + (if spec.capacity <= 0 then [BadCapacity] else [])
  }

  /** The capacity check runs only on an otherwise sound spec. */
  function StructuralErrors(spec: Spec): seq<Error> {
    var needed, available := |spec.leaves| * |spec.spines|, spec.p2p.Size() / 2;
    if BasicErrors(spec) != [] then BasicErrors(spec)
    else if needed > available then [PoolTooSmall(available, needed)] else []
  }

  function OverlapErrors(nets: seq<HostNetwork>): seq<Error> {
    if nets == [] then [] else FlatMap(nets[1..], OverlapError(nets[0])) + OverlapErrors(nets[1..])
  }

  function CollisionErrors(topo: Topology): seq<Error> {
    FlatMap(Repeats(Loopbacks(topo.nodes)), LoopbackError())
      + FlatMap(Repeats(Managements(topo.nodes)), ManagementError())
    + FlatMap(Repeats(P2pAddresses(topo.links)), P2pError()) + OverlapErrors(topo.hostNetworks)
  }

  /** None is the allocator's KeyError, which the validator lets through. */
  function ValidationErrors(spec: Spec): Option<seq<Error>> {
    if StructuralErrors(spec) != [] then Some(StructuralErrors(spec))
    else if !Allocatable(spec) then None
    else Some(CollisionErrors(Allocated(spec)))
  }

  // ----- the validator as it runs -----

  method ReportDupes<T(==)>(items: seq<T>, error: T -> seq<Error>) returns (errors: seq<Error>)
    ensures errors == FlatMap(Repeats(items), error)
  {
    var seen: set<T> := {};
    errors := [];
    for i := 0 to |items|
      invariant forall x :: x in seen <==> x in items[..i]
      invariant errors == FlatMap(Repeats(items[..i]), error)
    {
      assert items[..i + 1] == items[..i] + [items[i]] && items[..i + 1][..i] == items[..i];
      assert Repeats(items[..i]) + [] == Repeats(items[..i]);
      if items[i] in seen {
        FlatMapAppend(Repeats(items[..i]), items[i], error);
        errors := errors + error(items[i]);
      }
      seen := seen + {items[i]};
    }
    assert items[..|items|] == items;
  }

  /** One pass over a list, appending each item's errors. */
  method CheckEach<T>(items: seq<T>, error: T -> seq<Error>) returns (errors: seq<Error>)
    ensures errors == FlatMap(items, error)
  {
    errors := [];
    for i := 0 to |items|
      invariant errors == FlatMap(items[..i], error)
    {
      assert items[..i + 1][..i] == items[..i];
      errors := errors + error(items[i]);
    }
    assert items[..|items|] == items;
  }

  method CheckOverlaps(nets: seq<HostNetwork>) returns (errors: seq<Error>)
    ensures errors == OverlapErrors(nets)
  {
    errors := [];
    for i := 0 to |nets|
      invariant errors + OverlapErrors(nets[i..]) == OverlapErrors(nets)
    {
      var found := CheckEach(nets[i + 1..], OverlapError(nets[i]));
      assert nets[i..][1..] == nets[i + 1..] && nets[i..][0] == nets[i];
      assert OverlapErrors(nets[i..]) == found + OverlapErrors(nets[i + 1..]);
      assert (errors + found) + OverlapErrors(nets[i + 1..]) == errors + (found + OverlapErrors(nets[i + 1..]));
      errors := errors + found;
    }
    assert nets[|nets|..] == [] && errors + OverlapErrors([]) == errors;
  }

  method AddressCollisions(topo: Topology) returns (errors: seq<Error>)
    ensures errors == CollisionErrors(topo)
  {
    var loopbacks := ReportDupes(Loopbacks(topo.nodes), LoopbackError());
    var managements := ReportDupes(Managements(topo.nodes), ManagementError());
    var p2p := ReportDupes(P2pAddresses(topo.links), P2pError());
    var overlaps := CheckOverlaps(topo.hostNetworks);
    errors := loopbacks + managements + p2p + overlaps;
  }

  method CheckBasics(spec: Spec) returns (errors: seq<Error>)
    ensures errors == BasicErrors(spec)
  {
    var names := ReportDupes(Names(spec), NameError());
    var asns := ReportDupes(Asns(spec), AsnError());
    var switches := CheckEach(Switches(spec), RangeError());
    var hosts := CheckEach(spec.hosts, HostError(spec));
    var interfaces := CheckEach(InterfaceValues(spec.interfaces), InterfaceError());
    var pools := CheckEach(Pools(spec), PoolError());
    hide FlatMap, Repeats, Names, Asns, Switches, InterfaceValues, Pools;
    errors := names + asns + switches + hosts + interfaces + pools;
    errors := errors + if spec.mtu <= 0 then [BadMtu] else [];
    errors := errors + if spec.capacity <= 0 then [BadCapacity] else [];
  }

  method CheckStructure(spec: Spec) returns (errors: seq<Error>)
    ensures errors == StructuralErrors(spec)
  {
    errors := CheckBasics(spec);
    hide BasicErrors;
    if errors == [] {
      var needed, available := |spec.leaves| * |spec.spines|, spec.p2p.Size() / 2;
      if needed > available { errors := [PoolTooSmall(available, needed)]; }
    }
  }

  method ValidateFabric(spec: Spec) returns (errors: Option<seq<Error>>)
    ensures errors == ValidationErrors(spec)
  {
    var found := CheckStructure(spec);
    if found == [] {
      var topo := Allocate(spec);
      if topo.None? { return None; }
      found := AddressCollisions(topo.value);
    }
    errors := Some(found);
  }

  // ----- what an empty error list means -----

  lemma {:induction false} FlatMapEmpty<T>(s: seq<T>, f: T -> seq<Error>)
    ensures FlatMap(s, f) == [] <==> forall x | x in s :: f(x) == []
  {
    if s != [] {
      FlatMapEmpty(s[..|s| - 1], f);
      assert forall x :: x in s <==> x in s[..|s| - 1] || x == s[|s| - 1];
    }
  }

  lemma {:induction false} RepeatsNone<T>(items: seq<T>)
    ensures Repeats(items) == [] <==> Distinct(items)
  {
    if items != [] {
      var n := |items| - 1;
      RepeatsNone(items[..n]);
      hide Repeats;
      DistinctFront(items);
    }
    if items != [] { RepeatsLast(items); }
  }

  lemma RepeatsLast<T>(items: seq<T>)
    requires items != []
    ensures var n := |items| - 1; Repeats(items) == [] <==> Repeats(items[..n]) == [] && items[n] !in items[..n]
  {
  }

  lemma DistinctFront<T>(items: seq<T>)
    requires items != []
    ensures var n := |items| - 1; Distinct(items) <==> Distinct(items[..n]) && items[n] !in items[..n]
  {
    var n := |items| - 1;
    assert forall i | 0 <= i < n :: items[i] in items[..n];
  }

  lemma NoRepeats<T(!new)>(items: seq<T>, error: T -> seq<Error>)
    requires forall x :: error(x) != []
    ensures FlatMap(Repeats(items), error) == [] <==> Distinct(items)
  {
    RepeatsNone(items);
    hide Repeats, Distinct;
  }

  lemma DisjointHead(nets: seq<HostNetwork>)
    requires nets != []
    ensures Disjoint(nets) <==> Disjoint(nets[1..]) && forall b | b in nets[1..] :: !Overlaps(nets[0].subnet, b.subnet)
  {
    hide Overlaps;
    var rest := nets[1..];
    if Disjoint(nets) {
      forall b | b in rest ensures !Overlaps(nets[0].subnet, b.subnet) {
        var j :| 0 <= j < |rest| && rest[j] == b;
        assert nets[j + 1] == b;
      }
    }
    if forall b | b in rest :: !Overlaps(nets[0].subnet, b.subnet) {
      forall j | 0 < j < |nets| ensures !Overlaps(nets[0].subnet, nets[j].subnet) { assert rest[j - 1] in rest; }
    }
  }

  lemma {:induction false} NoOverlaps(nets: seq<HostNetwork>)
    ensures OverlapErrors(nets) == [] <==> Disjoint(nets)
  {
    if nets != [] {
      NoOverlaps(nets[1..]);
      FlatMapEmpty(nets[1..], OverlapError(nets[0]));
      DisjointHead(nets);
      hide Disjoint, Overlaps, FlatMap;
    }
  }

  lemma BasicErrorsNone(spec: Spec)
    ensures BasicErrors(spec) == [] <==>
      && Distinct(Names(spec)) && Distinct(Asns(spec))
      && (forall sw | sw in Switches(spec) :: PrivateAsn(sw.asn))
      && (forall h | h in spec.hosts :: KnownLeaf(spec, h))
      && (forall v | v in InterfaceValues(spec.interfaces) :: !Blank(v))
      && (forall p | p in Pools(spec) :: p.Parses())
      && spec.mtu > 0 && spec.capacity > 0
  {
    NoRepeats(Names(spec), NameError());
    NoRepeats(Asns(spec), AsnError());
    FlatMapEmpty(Switches(spec), RangeError());
    FlatMapEmpty(spec.hosts, HostError(spec));
    FlatMapEmpty(InterfaceValues(spec.interfaces), InterfaceError());
    FlatMapEmpty(Pools(spec), PoolError());
  }

  lemma CollisionErrorsNone(topo: Topology)
    ensures CollisionErrors(topo) == [] <==> NoCollisions(topo)
  {
    NoRepeats(Loopbacks(topo.nodes), LoopbackError());
    NoRepeats(Managements(topo.nodes), ManagementError());
    NoRepeats(P2pAddresses(topo.links), P2pError());
    NoOverlaps(topo.hostNetworks);
  }

  /**
    The validator reports nothing exactly on accepted specs, and fails to answer exactly on a sound spec the allocator
    cannot wire.
  */
  lemma NoErrorsMeansAccepted(spec: Spec)
    ensures ValidationErrors(spec).None? <==> Structural(spec) && !Allocatable(spec)
    ensures ValidationErrors(spec) == Some([]) <==> Accepted(spec) && Allocatable(spec)
  {
    BasicErrorsNone(spec);
    CollisionErrorsNone(Allocated(spec));
    hide BasicErrors, CollisionErrors, NoCollisions, Allocated, Allocatable;
  }

  // ----- what acceptance means for addresses -----

  lemma DistinctBelowAbove(a: seq<int>, b: seq<int>, m: int)
    requires Distinct(a) && Distinct(b) && (forall x | x in a :: x < m) && (forall x | x in b :: m <= x < m + 4)
    ensures Distinct(a + b) && forall x | x in a + b :: x < m + 4
  {
    forall i, j | 0 <= i < j < |a + b| ensures (a + b)[i] != (a + b)[j] {
      if i < |a| <= j { assert a[i] in a && b[j - |a|] in b; }
    }
  }

  lemma {:induction false} P2pOf(spec: Spec, n: nat)
    requires n <= |spec.leaves| && |spec.spines| <= 2
    ensures forall a | a in P2pAddresses(FabricLinks(spec, n)) :: a < spec.p2p.base + 4 * n
    ensures Distinct(P2pAddresses(FabricLinks(spec, n)))
  {
    if n > 0 {
      P2pOf(spec, n - 1);
      P2pOfLeaf(spec, n - 1, |spec.spines|);
      var a, b := FabricLinks(spec, n - 1), LeafLinks(spec, n - 1, |spec.spines|);
      DistinctBelowAbove(P2pAddresses(a), P2pAddresses(b), spec.p2p.base + 4 * (n - 1));
      FlatMapConcat(a, b, P2pEnds());
    }
  }

  lemma P2pOfLeaf(spec: Spec, i: nat, n: nat)
    requires i < |spec.leaves| && n <= |spec.spines| && n <= 2
    ensures var base := spec.p2p.base + 4 * i;
      && (forall a | a in P2pAddresses(LeafLinks(spec, i, n)) :: base <= a < base + 4)
      && Distinct(P2pAddresses(LeafLinks(spec, i, n)))
  {
    var base := spec.p2p.base + 4 * i;
    if n == 0 {
      assert LeafLinks(spec, i, 0) == [];
    } else {
      assert LeafLinks(spec, i, 1) == [] + [LinkOf(spec, i, 0)];
      OneMore([], LinkOf(spec, i, 0), base);
      if n == 2 {
        assert LeafLinks(spec, i, 2) == LeafLinks(spec, i, 1) + [LinkOf(spec, i, 1)];
        OneMore(LeafLinks(spec, i, 1), LinkOf(spec, i, 1), base + 2);
      }
    }
  }

  lemma OneMore(links: seq<Link>, lk: Link, a: int)
    requires lk.kind == FabricLink && lk.a.address == a && lk.b.address == a + 1
    ensures P2pAddresses(links + [lk]) == P2pAddresses(links) + [a, a + 1]
    ensures P2pAddresses([]) == []
  {
    FlatMapAppend(links, lk, P2pEnds());
    assert P2pEnds()(lk) == [a, a + 1];
  }

  lemma NoAccessAddressesOf(spec: Spec, i: nat)
    requires i < |spec.leaves|
    ensures P2pAddresses(AccessOf(spec, i)) == []
  {
    var links := AccessOf(spec, i);
    if links != [] {
      assert P2pEnds()(links[0]) == [];
      FlatMapAppend([], links[0], P2pEnds());
      assert [] + [links[0]] == links;
      hide AccessOf;
    }
  }

  lemma NoAccessYet(spec: Spec)
    ensures P2pAddresses(AccessLinks(spec, 0)) == []
  {
  }

  lemma LastAccessAddresses(spec: Spec, n: nat)
    requires 0 < n <= |spec.leaves|
    ensures P2pAddresses(AccessLinks(spec, n))
      == P2pAddresses(AccessLinks(spec, n - 1)) + P2pAddresses(AccessOf(spec, n - 1))
  {
    FlatMapConcat(AccessLinks(spec, n - 1), AccessOf(spec, n - 1), P2pEnds());
    hide FlatMap, AccessOf;
  }

  lemma {:induction false} NoAccessAddresses(spec: Spec, n: nat)
    requires n <= |spec.leaves|
    ensures P2pAddresses(AccessLinks(spec, n)) == []
  {
    hide *;
    if n == 0 {
      NoAccessYet(spec);
    } else {
      NoAccessAddresses(spec, n - 1);
      NoAccessAddressesOf(spec, n - 1);
      LastAccessAddresses(spec, n);
    }
  }

  /** With at most two spines the allocator never repeats a link address, whatever else the spec says. */
  lemma LinkAddressesDiffer(spec: Spec)
    requires |spec.spines| <= 2
    ensures Distinct(P2pAddresses(Allocated(spec).links))
  {
    P2pOf(spec, |spec.leaves|);
    NoAccessAddresses(spec, |spec.leaves|);
    FlatMapConcat(FabricLinks(spec, |spec.leaves|), AccessLinks(spec, |spec.leaves|), P2pEnds());
    assert P2pAddresses(FabricLinks(spec, |spec.leaves|)) + [] == P2pAddresses(FabricLinks(spec, |spec.leaves|));
  }

  ghost predicate InPool(p: Pool, a: int) { p.base <= a < p.base + p.Size() }

  ghost predicate AllInPool(spec: Spec) {
    forall i: nat, j: nat | i < |spec.leaves| && j < |spec.spines| ::
      InPool(spec.p2p, LeafAddress(spec, i, j)) && InPool(spec.p2p, SpineAddress(spec, i, j))
  }

  /** The links fit the pool exactly when the last spine address does. */
  lemma PoolBound(spec: Spec)
    requires 1 <= |spec.spines| <= 2 && spec.leaves != []
    ensures AllInPool(spec) <==> 4 * |spec.leaves| + 2 * |spec.spines| - 4 <= spec.p2p.Size()
  {
    var i, j := |spec.leaves| - 1, |spec.spines| - 1;
    assert InPool(spec.p2p, SpineAddress(spec, i, j)) <==> 4 * |spec.leaves| + 2 * |spec.spines| - 4 <= spec.p2p.Size();
  }

  lemma EvenBase(p: Pool)
    requires p.Parses() && p.Size() >= 2
    ensures p.base % 2 == 0
  {
    var half := Pow2(p.hostBits - 1);
    var q := p.base / p.Size();
    assert p.Size() == 2 * half;
    assert p.base == q * p.Size();
    assert p.base == 2 * (q * half);
  }

  /** Each link is the even and the odd address of one pair, the even one at its leaf. */
  ghost predicate Paired(spec: Spec) {
    forall i: nat, j: nat | i < |spec.leaves| && j < |spec.spines| ::
      LeafAddress(spec, i, j) % 2 == 0 && SpineAddress(spec, i, j) == LeafAddress(spec, i, j) + 1
  }

  lemma EvenBasePairs(spec: Spec)
    requires spec.p2p.base % 2 == 0
    ensures Paired(spec)
  {
  }

  lemma TwoSpinesFit(spec: Spec)
    requires |spec.spines| == 2 && |spec.leaves| * |spec.spines| <= spec.p2p.Size() / 2
    ensures AllInPool(spec)
  {
    if spec.leaves != [] { PoolBound(spec); }
  }

  /**
    With exactly two spines an accepted spec has all link addresses distinct, inside the pool, and paired as even leaf
    and odd spine.
  */
  lemma TwoSpinesAreSound(spec: Spec)
    requires Accepted(spec) && |spec.spines| == 2
    ensures Distinct(P2pAddresses(Allocated(spec).links)) && AllInPool(spec) && Paired(spec)
  {
    hide Allocated, NoCollisions, Distinct, AllInPool, Paired, Names, Asns, Switches, Blank, KnownLeaf, InterfaceValues;
    LinkAddressesDiffer(spec);
    TwoSpinesFit(spec);
    if spec.leaves == [] {
      NoLeavesPair(spec);
    } else {
      assert spec.p2p in Pools(spec);
      EvenBase(spec.p2p);
      EvenBasePairs(spec);
    }
  }

  lemma NoLeavesPair(spec: Spec)
    requires spec.leaves == []
    ensures Paired(spec)
  {
  }

  /**
    With one spine the links stay in the pool exactly when 4 * leaves - 2 <= size. The validator's capacity check, 2 *
    leaves <= size, is weaker.
  */
  lemma OneSpineBound(spec: Spec)
    requires |spec.spines| == 1 && spec.leaves != []
    ensures AllInPool(spec) <==> 4 * |spec.leaves| - 2 <= spec.p2p.Size()
  {
    PoolBound(spec);
  }

  // ----- loopback and management addresses -----

  /** The count addresses after base: ordinals start at 1. */
  function Ordinals(base: int, count: nat): seq<int> { seq(count, i requires 0 <= i < count => base + i + 1) }

  lemma NodeAt(spec: Spec, k: nat)
    requires k < |Nodes(spec)|
    ensures |Nodes(spec)| == |spec.spines| + |spec.leaves| + |spec.hosts|
    ensures Nodes(spec)[k].management == spec.management.base + k + 1
    ensures Nodes(spec)[k].loopback
         == if k < |spec.spines| + |spec.leaves| then Some(spec.loopback.base + k + 1) else None
  {
  }

  lemma NoLoopbacks()
    ensures Loopbacks([]) == []
  {
  }

  lemma LoopbacksAppend(nodes: seq<Node>, n: Node)
    ensures Loopbacks(nodes + [n]) == Loopbacks(nodes) + if n.loopback.Some? then [n.loopback.value] else []
  {
    FlatMapAppend(nodes, n, LoopbackOf());
  }

  lemma {:induction false} LoopbacksUpTo(spec: Spec, k: nat)
    requires k <= |Nodes(spec)|
    ensures var switches := |spec.spines| + |spec.leaves|;
      Loopbacks(Nodes(spec)[..k]) == Ordinals(spec.loopback.base, if k <= switches then k else switches)
  {
    hide FlatMap, Nodes, Loopbacks;
    if k == 0 {
      assert Nodes(spec)[..0] == [] && Ordinals(spec.loopback.base, 0) == [];
      NoLoopbacks();
    } else {
      LoopbacksUpTo(spec, k - 1);
      NodeAt(spec, k - 1);
      LoopbacksAppend(Nodes(spec)[..k - 1], Nodes(spec)[k - 1]);
      assert Nodes(spec)[..k] == Nodes(spec)[..k - 1] + [Nodes(spec)[k - 1]];
    }
  }

  /** Loopback and management addresses count up from their bases, so no two ever collide. */
  lemma NodeAddressesDiffer(spec: Spec)
    ensures Loopbacks(Nodes(spec)) == Ordinals(spec.loopback.base, |spec.spines| + |spec.leaves|)
    ensures Managements(Nodes(spec)) == Ordinals(spec.management.base, |spec.spines| + |spec.leaves| + |spec.hosts|)
    ensures Distinct(Loopbacks(Nodes(spec))) && Distinct(Managements(Nodes(spec)))
  {
    LoopbacksUpTo(spec, |Nodes(spec)|);
    assert Nodes(spec)[..|Nodes(spec)|] == Nodes(spec);
    forall k | 0 <= k < |Nodes(spec)| ensures Nodes(spec)[k].management == spec.management.base + k + 1 {
      NodeAt(spec, k);
    }
  }

  /** So with at most two spines the only collision the validator can find is between host subnets. */
  lemma OnlySubnetsCollide(spec: Spec)
    requires |spec.spines| <= 2
    ensures NoCollisions(Allocated(spec)) <==> Disjoint(Allocated(spec).hostNetworks)
  {
    NodeAddressesDiffer(spec);
    LinkAddressesDiffer(spec);
    hide Nodes, Distinct, Loopbacks, Managements, P2pAddresses;
  }

  ghost predicate LoopbacksInPool(spec: Spec) {
    forall a | a in Loopbacks(Nodes(spec)) :: InPool(spec.loopback, a)
  }

  ghost predicate ManagementInPool(spec: Spec) {
    forall a | a in Managements(Nodes(spec)) :: InPool(spec.management, a)
  }

  lemma OrdinalsFit(p: Pool, count: nat)
    ensures (forall a | a in Ordinals(p.base, count) :: InPool(p, a)) <==> count < p.Size()
  {
    if count > 0 {
      assert Ordinals(p.base, count)[count - 1] in Ordinals(p.base, count);
    }
  }

  /**
    The loopbacks stay in their pool exactly when the switches are fewer than its addresses, and the management
    addresses exactly when all nodes are: neither is checked.
  */
  lemma NodePoolBounds(spec: Spec)
    ensures LoopbacksInPool(spec) <==> |spec.spines| + |spec.leaves| < spec.loopback.Size()
    ensures ManagementInPool(spec) <==> |spec.spines| + |spec.leaves| + |spec.hosts| < spec.management.Size()
  {
    NodeAddressesDiffer(spec);
    OrdinalsFit(spec.loopback, |spec.spines| + |spec.leaves|);
    OrdinalsFit(spec.management, |spec.spines| + |spec.leaves| + |spec.hosts|);
    hide Nodes, Loopbacks, Managements, Ordinals, InPool;
  }

  function OneSpineSpec(): Spec {
    Spec("lab", [Switch("s", 65101)], [Switch("a", 65001), Switch("b", 65002)], [], Pool(0, 2), Pool(256, 1),
      Pool(512, 1), (i: nat) => Prefix(1024 * i, 24), Interfaces("u", "v", "d", "p", "e"), 1500, 1)
  }

  lemma OneSpineSpecNetworks()
    ensures HostNetworks(OneSpineSpec(), 2) == []
  {
    var spec := OneSpineSpec();
    assert NetworkOf(spec, 0) == [] && NetworkOf(spec, 1) == [];
    assert HostNetworks(spec, 1) == [];
  }

  lemma OneSpineSpecCollisions()
    ensures NoCollisions(Allocated(OneSpineSpec()))
  {
    var spec := OneSpineSpec();
    hide NoCollisions, HostNetworks, Nodes, FabricLinks, AccessLinks;
    OnlySubnetsCollide(spec);
    OneSpineSpecNetworks();
  }

  lemma OneSpineSpecNames()
    ensures Distinct(Names(OneSpineSpec())) && Distinct(Asns(OneSpineSpec()))
  {
    assert Names(OneSpineSpec()) == ["s", "a", "b"];
    assert "s"[0] != "a"[0] && "s"[0] != "b"[0] && "a"[0] != "b"[0];
    assert Asns(OneSpineSpec()) == [65101, 65001, 65002];
  }

  lemma OneSpineSpecInterfaces()
    ensures forall v | v in InterfaceValues(OneSpineSpec().interfaces) :: !Blank(v)
  {
    assert forall v | v in InterfaceValues(OneSpineSpec().interfaces) ::
      |v| == 1 && v[0] in v && !Whitespace(v[0]);
  }

  lemma OneSpineSpecPools()
    ensures Pow2(1) == 2 && Pow2(2) == 4
    ensures forall p | p in Pools(OneSpineSpec()) :: p.Parses()
  {
    assert Pow2(1) == 2 * Pow2(0);
  }

  lemma OneSpineSpecSwitches()
    ensures forall sw | sw in Switches(OneSpineSpec()) :: PrivateAsn(sw.asn)
    ensures |OneSpineSpec().leaves| == 2 && |OneSpineSpec().spines| == 1 && OneSpineSpec().p2p == Pool(0, 2)
    ensures OneSpineSpec().loopback == Pool(256, 1) && OneSpineSpec().management == Pool(512, 1)
    ensures OneSpineSpec().hosts == [] && OneSpineSpec().mtu > 0 && OneSpineSpec().capacity > 0
  {
  }

  /**
    One spine, two leaves, a pool of four link addresses, and two addresses each for loopbacks and management: accepted,
    yet all three pools overflow.
  */
  lemma OneSpineOverflows()
    ensures Accepted(OneSpineSpec()) && !AllInPool(OneSpineSpec())
    ensures !LoopbacksInPool(OneSpineSpec()) && !ManagementInPool(OneSpineSpec())
  {
    OneSpineSpecCollisions();
    OneSpineSpecNames();
    OneSpineSpecInterfaces();
    OneSpineSpecPools();
    OneSpineSpecSwitches();
    var spec := OneSpineSpec();
    assert |spec.leaves| * |spec.spines| <= spec.p2p.Size() / 2;
    assert Structural(spec);
    NodePoolBounds(spec);
    assert !InPool(spec.p2p, SpineAddress(spec, 1, 0));
  }

  /** OneSpineSpec with two more spines, one leaf and a pool for three links. */
  function ThreeSpineSpec(): Spec {
    OneSpineSpec().(
      spines := [Switch("s", 65101), Switch("t", 65102), Switch("r", 65103)],
      leaves := [Switch("a", 65001)],
      p2p := Pool(0, 3))
  }

  lemma ThreeSpineSpecNames()
    ensures Distinct(Names(ThreeSpineSpec())) && Distinct(Asns(ThreeSpineSpec()))
  {
    assert Names(ThreeSpineSpec()) == ["s", "t", "r", "a"];
    assert "s"[0] == 's' && "t"[0] == 't' && "r"[0] == 'r' && "a"[0] == 'a';
    assert Asns(ThreeSpineSpec()) == [65101, 65102, 65103, 65001];
  }

  lemma ThreeSpineSpecPools()
    ensures Pow2(3) == 8 && forall p | p in Pools(ThreeSpineSpec()) :: p.Parses()
  {
    OneSpineSpecPools();
    assert Pow2(3) == 2 * Pow2(2);
    assert OneSpineSpec().loopback in Pools(OneSpineSpec()) && OneSpineSpec().management in Pools(OneSpineSpec());
  }

  lemma ThreeSpineSpecSwitches()
    ensures forall sw | sw in Switches(ThreeSpineSpec()) :: PrivateAsn(sw.asn)
  {
  }

  /** Three spines and a leaf pass every structural rule, and then the validator fails instead of answering. */
  lemma ThreeSpinesGoUnanswered()
    ensures Structural(ThreeSpineSpec()) && ValidationErrors(ThreeSpineSpec()).None?
  {
    var spec := ThreeSpineSpec();
    ThreeSpineSpecNames();
    ThreeSpineSpecPools();
    ThreeSpineSpecSwitches();
    OneSpineSpecInterfaces();
    NoErrorsMeansAccepted(spec);
    hide ValidationErrors, Distinct, Names, Asns, Switches, Pools, InterfaceValues, Blank;
    assert |spec.leaves| * |spec.spines| == 3 && spec.p2p.Size() / 2 == 4;
  }
}
