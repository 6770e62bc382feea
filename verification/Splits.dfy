/** Location-inductive split assembly: which incident sets it accepts, and the manifest it returns. */
module Splits {
  datatype Incident = Incident(id: string, link: string, leaf: string, family: int, batch: string)

  datatype Manifest = Manifest(assignments: map<string, string>, linkGroups: map<string, set<string>>,
    counts: map<string, nat>)

  datatype Result =
    | Assembled(manifest: Manifest)
    | UnknownLeaf(leaf: string)
    | LinkLeak(link: string)
    | FamilyStraddles(family: (int, string))

  type Policy = map<string, string>

  predicate Covered(policy: Policy, incidents: seq<Incident>) { forall x | x in incidents :: x.leaf in policy }

  /** No link is the target of incidents in two splits. */
  ghost predicate LinksApart(policy: Policy, incidents: seq<Incident>)
    requires Covered(policy, incidents)
  {
    forall x, y | x in incidents && y in incidents && x.link == y.link :: policy[x.leaf] == policy[y.leaf]
  }

  function Family(x: Incident): (int, string) { (x.family, x.batch) }

  /** incident_id -> split, a later incident with the same id replacing an earlier one. */
  function Assigned(policy: Policy, incidents: seq<Incident>): (r: map<string, string>)
    requires Covered(policy, incidents)
    ensures forall x | x in incidents :: x.id in r
  {
    if incidents == [] then map[]
    else
      var n := |incidents| - 1;
      assert forall x | x in incidents :: x in incidents[..n] || x == incidents[n];
      Assigned(policy, incidents[..n])[incidents[n].id := policy[incidents[n].leaf]]
  }

  /** No repeat family has incidents assigned to two splits. */
  ghost predicate FamiliesApart(splitOf: map<string, string>, incidents: seq<Incident>)
    requires forall x | x in incidents :: x.id in splitOf
  {
    forall x, y | x in incidents && y in incidents && Family(x) == Family(y) :: splitOf[x.id] == splitOf[y.id]
  }

  ghost predicate Acceptable(policy: Policy, incidents: seq<Incident>) {
    Covered(policy, incidents) && LinksApart(policy, incidents) && FamiliesApart(Assigned(policy, incidents), incidents)
  }

  /** The links of the incidents assigned to a split. */
  function LinksIn(splitOf: map<string, string>, incidents: seq<Incident>, split: string): set<string>
    requires forall x | x in incidents :: x.id in splitOf
  {
    set x | x in incidents && splitOf[x.id] == split :: x.link
  }

  ghost predicate Groups(splitOf: map<string, string>, incidents: seq<Incident>, groups: map<string, set<string>>)
    requires forall x | x in incidents :: x.id in splitOf
  {
    && (forall s :: s in groups <==> LinksIn(splitOf, incidents, s) != {})
    && (forall s | s in groups :: groups[s] == LinksIn(splitOf, incidents, s))
  }

  function IdsIn(splitOf: map<string, string>, split: string): set<string> {
    set id | id in splitOf && splitOf[id] == split
  }

  ghost predicate Counts(splitOf: map<string, string>, counts: map<string, nat>) {
    && (forall s :: s in counts <==> IdsIn(splitOf, s) != {})
    && (forall s | s in counts :: counts[s] == |IdsIn(splitOf, s)|)
  }

  predicate Recorded(policy: Policy, linkSplit: map<string, string>, x: Incident) {
    x.leaf in policy && x.link in linkSplit && linkSplit[x.link] == policy[x.leaf]
  }

  ghost predicate HasLink(incidents: seq<Incident>, link: string) { exists x | x in incidents :: x.link == link }

  /** link_split after the given incidents: each of their links, with the one split they share it in. */
  ghost predicate Seen(policy: Policy, incidents: seq<Incident>, linkSplit: map<string, string>) {
    && (forall x | x in incidents :: Recorded(policy, linkSplit, x))
    && (forall l | l in linkSplit :: HasLink(incidents, l))
  }

  lemma SeenStep(policy: Policy, incidents: seq<Incident>, x: Incident, linkSplit: map<string, string>)
    requires Seen(policy, incidents, linkSplit) && x.leaf in policy
    requires x.link in linkSplit ==> linkSplit[x.link] == policy[x.leaf]
    ensures Seen(policy, incidents + [x], linkSplit[x.link := policy[x.leaf]])
  {
    var longer := incidents + [x];
    assert forall y :: y in longer <==> y in incidents || y == x;
    assert HasLink(longer, x.link);
    forall l | l in linkSplit ensures HasLink(longer, l) {
      var y :| y in incidents && y.link == l;
      assert y in longer;
    }
  }

  lemma SeenIsApart(policy: Policy, incidents: seq<Incident>, linkSplit: map<string, string>)
    requires Seen(policy, incidents, linkSplit)
    ensures Covered(policy, incidents) && LinksApart(policy, incidents)
  {
    forall x, y | x in incidents && y in incidents && x.link == y.link ensures policy[x.leaf] == policy[y.leaf] {
      assert Recorded(policy, linkSplit, x) && Recorded(policy, linkSplit, y);
    }
  }

  /** First loop: assign, and refuse a link seen in another split. */
  method AssignLinks(incidents: seq<Incident>, policy: Policy) returns (splitOf: map<string, string>, error: Result)
    ensures error.Assembled? <==> Covered(policy, incidents) && LinksApart(policy, incidents)
    ensures error.Assembled? ==> splitOf == Assigned(policy, incidents)
    ensures error.UnknownLeaf? ==> error.leaf !in policy && exists x | x in incidents :: x.leaf == error.leaf
    ensures error.LinkLeak?
      ==> exists x, y | x in incidents && y in incidents && x.leaf in policy && y.leaf in policy ::
      x.link == error.link == y.link && policy[x.leaf] != policy[y.leaf]
    ensures !error.FamilyStraddles?
  {
    splitOf := map[];
    var linkSplit: map<string, string> := map[];
    for i := 0 to |incidents|
      invariant Covered(policy, incidents[..i]) && splitOf == Assigned(policy, incidents[..i])
      invariant Seen(policy, incidents[..i], linkSplit)
    {
      var x := incidents[i];
      assert incidents[..i + 1] == incidents[..i] + [x] && incidents[..i + 1][..i] == incidents[..i];
      if x.leaf !in policy { return splitOf, UnknownLeaf(x.leaf); }
      var split := policy[x.leaf];
      splitOf := splitOf[x.id := split];
      if x.link in linkSplit && linkSplit[x.link] != split {
        assert HasLink(incidents[..i], x.link);
        var y :| y in incidents[..i] && y.link == x.link;
        assert y in incidents && x in incidents && Recorded(policy, linkSplit, y);
        return splitOf, LinkLeak(x.link);
      }
      SeenStep(policy, incidents[..i], x, linkSplit);
      linkSplit := linkSplit[x.link := split];
    }
    assert incidents[..|incidents|] == incidents;
    SeenIsApart(policy, incidents, linkSplit);
    error := Assembled(Manifest(map[], map[], map[]));
  }

  /** Second loop: the first repeat family found in two splits, if any. */
  method CheckFamilies(incidents: seq<Incident>, splitOf: map<string, string>) returns (straddling: seq<(int, string)>)
    requires forall x | x in incidents :: x.id in splitOf
    ensures straddling == [] <==> FamiliesApart(splitOf, incidents)
    ensures straddling != [] ==> exists x, y | x in incidents && y in incidents ::
      Family(x) == straddling[0] == Family(y) && splitOf[x.id] != splitOf[y.id]
  {
    var familySplit: map<(int, string), string> := map[];
    for i := 0 to |incidents|
      invariant forall x | x in incidents[..i] :: Family(x) in familySplit && familySplit[Family(x)] == splitOf[x.id]
      invariant forall f | f in familySplit :: exists x | x in incidents[..i] :: Family(x) == f
    {
      var x := incidents[i];
      assert incidents[..i + 1] == incidents[..i] + [x];
      if Family(x) in familySplit && familySplit[Family(x)] != splitOf[x.id] {
        var y :| y in incidents[..i] && Family(y) == Family(x);
        assert y in incidents && x in incidents;
        return [Family(x)];
      }
      familySplit := familySplit[Family(x) := splitOf[x.id]];
    }
    assert incidents[..|incidents|] == incidents;
    straddling := [];
  }

  lemma LinksInAppend(splitOf: map<string, string>, incidents: seq<Incident>, x: Incident, split: string)
    requires (forall y | y in incidents :: y.id in splitOf) && x.id in splitOf
    ensures LinksIn(splitOf, incidents + [x], split) == LinksIn(splitOf, incidents, split)
      + if splitOf[x.id] == split then {x.link} else {}
  {
    assert forall y :: y in incidents + [x] <==> y in incidents || y == x;
    if splitOf[x.id] == split { assert x.link in LinksIn(splitOf, incidents + [x], split); }
    forall l | l in LinksIn(splitOf, incidents, split) ensures l in LinksIn(splitOf, incidents + [x], split) {
      var y :| y in incidents && splitOf[y.id] == split && y.link == l;
      assert y in incidents + [x];
    }
  }

  lemma GroupsStep(splitOf: map<string, string>, incidents: seq<Incident>, x: Incident,
      groups: map<string, set<string>>)
    requires (forall y | y in incidents :: y.id in splitOf) && x.id in splitOf && Groups(splitOf, incidents, groups)
    ensures var split := splitOf[x.id];
      Groups(splitOf, incidents + [x], groups[split := (if split in groups then groups[split] else {}) + {x.link}])
  {
    var split := splitOf[x.id];
    forall s
      ensures LinksIn(splitOf, incidents + [x], s) == LinksIn(splitOf, incidents, s)
        + if split == s then {x.link} else {}
    {
      LinksInAppend(splitOf, incidents, x, s);
    }
  }

  method BuildGroups(incidents: seq<Incident>, splitOf: map<string, string>) returns (groups: map<string, set<string>>)
    requires forall x | x in incidents :: x.id in splitOf
    ensures Groups(splitOf, incidents, groups)
  {
    groups := map[];
    for i := 0 to |incidents|
      invariant Groups(splitOf, incidents[..i], groups)
    {
      var x := incidents[i];
      assert incidents[..i + 1] == incidents[..i] + [x];
      GroupsStep(splitOf, incidents[..i], x, groups);
      var split := splitOf[x.id];
      groups := groups[split := (if split in groups then groups[split] else {}) + {x.link}];
    }
    assert incidents[..|incidents|] == incidents;
  }

  /** Counter(assignments.values()). */
  method CountSplits(splitOf: map<string, string>) returns (counts: map<string, nat>)
    ensures Counts(splitOf, counts)
  {
    counts := map[];
    var left := splitOf.Keys;
    ghost var done: map<string, string> := map[];
    while left != {}
      invariant left <= splitOf.Keys
      invariant done == map id | id in splitOf && id !in left :: splitOf[id]
      invariant Counts(done, counts)
      decreases |left|
    {
      var id :| id in left;
      CountsStep(done, counts, id, splitOf[id]);
      counts := counts[splitOf[id] := (if splitOf[id] in counts then counts[splitOf[id]] else 0) + 1];
      done := done[id := splitOf[id]];
      left := left - {id};
    }
    assert done == splitOf;
  }

  lemma CountsStep(done: map<string, string>, counts: map<string, nat>, id: string, split: string)
    requires Counts(done, counts) && id !in done
    ensures Counts(done[id := split], counts[split := (if split in counts then counts[split] else 0) + 1])
  {
    var after := done[id := split];
    assert IdsIn(after, split) == IdsIn(done, split) + {id};
    forall s | s != split ensures IdsIn(after, s) == IdsIn(done, s) {
      assert forall x :: x in after && after[x] == s <==> x in done && done[x] == s;
    }
  }

  /**
    The assembler accepts exactly the leak-free incident sets with known leaves, and then builds the whole manifest.
  */
  method Assemble(incidents: seq<Incident>, policy: Policy) returns (result: Result)
    ensures result.Assembled? <==> Acceptable(policy, incidents)
    ensures result.Assembled? ==>
      && result.manifest.assignments == Assigned(policy, incidents)
      && Groups(result.manifest.assignments, incidents, result.manifest.linkGroups)
      && Counts(result.manifest.assignments, result.manifest.counts)
    ensures result.UnknownLeaf? ==> result.leaf !in policy && exists x | x in incidents :: x.leaf == result.leaf
    ensures result.LinkLeak?
      ==> exists x, y | x in incidents && y in incidents && x.leaf in policy && y.leaf in policy ::
      x.link == result.link == y.link && policy[x.leaf] != policy[y.leaf]
    ensures result.FamilyStraddles? ==>
      && Covered(policy, incidents) && LinksApart(policy, incidents)
      && exists x, y | x in incidents && y in incidents ::
           Family(x) == result.family == Family(y)
             && Assigned(policy, incidents)[x.id] != Assigned(policy, incidents)[y.id]
  {
    var splitOf, error := AssignLinks(incidents, policy);
    if !error.Assembled? { return error; }
    var straddling := CheckFamilies(incidents, splitOf);
    if straddling != [] { return FamilyStraddles(straddling[0]); }
    var groups := BuildGroups(incidents, splitOf);
    var counts := CountSplits(splitOf);
    result := Assembled(Manifest(splitOf, groups, counts));
  }

  // ----- what acceptance means -----

  ghost predicate UniqueIds(incidents: seq<Incident>) {
    forall i, j | 0 <= i < j < |incidents| :: incidents[i].id != incidents[j].id
  }

  lemma AssignedLast(policy: Policy, incidents: seq<Incident>)
    requires Covered(policy, incidents) && incidents != []
    ensures var n := |incidents| - 1;
      Covered(policy, incidents[..n])
        && Assigned(policy, incidents) == Assigned(policy, incidents[..n])[incidents[n].id := policy[incidents[n].leaf]]
  {
  }

  lemma {:induction false} AssignedAt(policy: Policy, incidents: seq<Incident>, k: nat)
    requires Covered(policy, incidents) && UniqueIds(incidents) && k < |incidents|
    ensures incidents[k].id in Assigned(policy, incidents)
    ensures Assigned(policy, incidents)[incidents[k].id] == policy[incidents[k].leaf]
  {
    AssignedLast(policy, incidents);
    if k < |incidents| - 1 { AssignedAt(policy, incidents[..|incidents| - 1], k); }
  }

  lemma AssignedByLeaf(policy: Policy, incidents: seq<Incident>, x: Incident)
    requires Covered(policy, incidents) && UniqueIds(incidents) && x in incidents
    ensures Assigned(policy, incidents)[x.id] == policy[x.leaf]
  {
    var k :| 0 <= k < |incidents| && incidents[k] == x;
    AssignedAt(policy, incidents, k);
  }

  lemma {:induction false} AssignedFrom(policy: Policy, incidents: seq<Incident>, id: string)
    requires Covered(policy, incidents) && id in Assigned(policy, incidents)
    ensures exists k: nat :: k < |incidents| && incidents[k].id == id
  {
    if incidents != [] {
      AssignedLast(policy, incidents);
      if id != incidents[|incidents| - 1].id { AssignedFrom(policy, incidents[..|incidents| - 1], id); }
    }
  }

  /**
    Accepted exactly when every leaf is known and no two incidents in different splits share a link or a repeat family.
  */
  lemma AcceptanceIsExact(policy: Policy, incidents: seq<Incident>)
    requires UniqueIds(incidents)
    ensures Acceptable(policy, incidents) <==>
      && Covered(policy, incidents)
      && forall x, y | x in incidents && y in incidents && policy[x.leaf] != policy[y.leaf] ::
         x.link != y.link && (x.family != y.family || x.batch != y.batch)
  {
    if Covered(policy, incidents) {
      forall x | x in incidents ensures Assigned(policy, incidents)[x.id] == policy[x.leaf] {
        AssignedByLeaf(policy, incidents, x);
      }
    }
  }

  ghost predicate Grouped(groups: map<string, set<string>>, link: string) {
    exists s | s in groups :: link in groups[s]
  }

  lemma GroupsPartition(splitOf: map<string, string>, incidents: seq<Incident>, groups: map<string, set<string>>)
    requires (forall x | x in incidents :: x.id in splitOf) && Groups(splitOf, incidents, groups)
    requires forall x, y | x in incidents && y in incidents && x.link == y.link :: splitOf[x.id] == splitOf[y.id]
    ensures forall s, t | s in groups && t in groups && s != t :: groups[s] !! groups[t]
    ensures forall l :: Grouped(groups, l) <==> exists x | x in incidents :: x.link == l
  {
    forall x | x in incidents ensures Grouped(groups, x.link) {
      assert x.link in LinksIn(splitOf, incidents, splitOf[x.id]);
      assert splitOf[x.id] in groups;
    }
    forall s, t | s in groups && t in groups && s != t ensures groups[s] !! groups[t] {
      assert groups[s] == LinksIn(splitOf, incidents, s) && groups[t] == LinksIn(splitOf, incidents, t);
    }
  }

  /**
    On acceptance the link groups partition the links: each link of an incident is in exactly one group, and no others
    are.
  */
  lemma GroupsPartitionLinks(policy: Policy, incidents: seq<Incident>, groups: map<string, set<string>>)
    requires UniqueIds(incidents) && Acceptable(policy, incidents)
    requires Groups(Assigned(policy, incidents), incidents, groups)
    ensures forall s, t | s in groups && t in groups && s != t :: groups[s] !! groups[t]
    ensures forall l :: Grouped(groups, l) <==> exists x | x in incidents :: x.link == l
  {
    var splitOf := Assigned(policy, incidents);
    forall x | x in incidents ensures splitOf[x.id] == policy[x.leaf] { AssignedByLeaf(policy, incidents, x); }
    GroupsPartition(splitOf, incidents, groups);
  }

  // ----- counting -----

  ghost function Pick(keys: set<string>): (k: string)
    requires keys != {}
    ensures k in keys
  {
    var k :| k in keys; k
  }

  ghost function Sum(counts: map<string, nat>, keys: set<string>): nat
    requires keys <= counts.Keys
  {
    if keys == {} then 0 else counts[Pick(keys)] + Sum(counts, keys - {Pick(keys)})
  }

  function IdsAmong(splitOf: map<string, string>, keys: set<string>): set<string> {
    set id | id in splitOf && splitOf[id] in keys
  }

  lemma {:induction false} SumIsIds(splitOf: map<string, string>, counts: map<string, nat>, keys: set<string>)
    requires Counts(splitOf, counts) && keys <= counts.Keys
    ensures Sum(counts, keys) == |IdsAmong(splitOf, keys)|
  {
    if keys == {} {
      assert IdsAmong(splitOf, keys) == {};
    } else {
      var k := Pick(keys);
      SumIsIds(splitOf, counts, keys - {k});
      assert IdsAmong(splitOf, keys) == IdsIn(splitOf, k) + IdsAmong(splitOf, keys - {k});
      assert IdsIn(splitOf, k) !! IdsAmong(splitOf, keys - {k});
    }
  }

  lemma {:induction false} AssignedSize(policy: Policy, incidents: seq<Incident>)
    requires Covered(policy, incidents) && UniqueIds(incidents)
    ensures |Assigned(policy, incidents).Keys| == |incidents|
  {
    if incidents != [] {
      var n := |incidents| - 1;
      AssignedLast(policy, incidents);
      AssignedSize(policy, incidents[..n]);
      KeyAdded(Assigned(policy, incidents[..n]), incidents[n].id, policy[incidents[n].leaf]);
      if incidents[n].id in Assigned(policy, incidents[..n]) { AssignedFrom(policy, incidents[..n], incidents[n].id); }
    }
  }

  lemma KeyAdded(m: map<string, string>, id: string, split: string)
    ensures |m[id := split].Keys| == |m.Keys| + if id in m then 0 else 1
  {
    assert m[id := split].Keys == m.Keys + {id};
  }

  lemma AllCounted(splitOf: map<string, string>, counts: map<string, nat>)
    requires Counts(splitOf, counts)
    ensures IdsAmong(splitOf, counts.Keys) == splitOf.Keys
  {
    forall id | id in splitOf ensures splitOf[id] in counts { assert id in IdsIn(splitOf, splitOf[id]); }
  }

  lemma CountsSum(splitOf: map<string, string>, counts: map<string, nat>)
    requires Counts(splitOf, counts)
    ensures Sum(counts, counts.Keys) == |splitOf.Keys|
  {
    SumIsIds(splitOf, counts, counts.Keys);
    AllCounted(splitOf, counts);
  }

  /** The counts add up: every incident is counted in exactly one split. */
  lemma CountsSumToIncidents(policy: Policy, incidents: seq<Incident>, counts: map<string, nat>)
    requires UniqueIds(incidents) && Covered(policy, incidents) && Counts(Assigned(policy, incidents), counts)
    ensures Sum(counts, counts.Keys) == |incidents|
  {
    CountsSum(Assigned(policy, incidents), counts);
    AssignedSize(policy, incidents);
  }

  // ----- order does not matter -----

  lemma {:induction false} OnceIn(incidents: seq<Incident>, x: Incident)
    requires UniqueIds(incidents)
    ensures multiset(incidents)[x] <= 1
  {
    if incidents != [] {
      var n := |incidents| - 1;
      assert incidents == incidents[..n] + [incidents[n]];
      OnceIn(incidents[..n], x);
      if x == incidents[n] { assert x !in incidents[..n]; }
    }
  }

  lemma TwiceIn(incidents: seq<Incident>, i: nat, j: nat)
    requires i < j < |incidents| && incidents[i] == incidents[j]
    ensures multiset(incidents)[incidents[i]] >= 2
  {
    assert incidents == incidents[..j] + [incidents[j]] + incidents[j + 1..];
    assert incidents[i] in incidents[..j];
  }

  lemma PermutedIds(a: seq<Incident>, b: seq<Incident>)
    requires multiset(a) == multiset(b) && UniqueIds(a)
    ensures UniqueIds(b) && forall x :: x in a <==> x in b
  {
    forall x ensures x in a <==> x in b { assert x in a <==> x in multiset(a); assert x in b <==> x in multiset(b); }
    forall i, j | 0 <= i < j < |b| ensures b[i].id != b[j].id {
      OnceIn(a, b[i]);
      if b[i] == b[j] { TwiceIn(b, i, j); }
      assert b[i] in a && b[j] in a;
    }
  }

  lemma SameAssignments(policy: Policy, a: seq<Incident>, b: seq<Incident>)
    requires UniqueIds(a) && UniqueIds(b) && (forall x :: x in a <==> x in b) && Covered(policy, a)
    ensures Covered(policy, b) && Assigned(policy, a) == Assigned(policy, b)
  {
    forall id | id in Assigned(policy, a)
      ensures id in Assigned(policy, b) && Assigned(policy, a)[id] == Assigned(policy, b)[id]
    {
      AssignedFrom(policy, a, id);
      var k: nat :| k < |a| && a[k].id == id;
      assert a[k] in a && a[k] in b;
      AssignedByLeaf(policy, a, a[k]);
      AssignedByLeaf(policy, b, a[k]);
    }
    forall id | id in Assigned(policy, b) ensures id in Assigned(policy, a) {
      AssignedFrom(policy, b, id);
      var k: nat :| k < |b| && b[k].id == id;
      assert b[k] in b && b[k] in a;
    }
  }

  /** Permuting the incidents changes neither acceptance nor any part of the manifest. */
  lemma OrderDoesNotMatter(policy: Policy, a: seq<Incident>, b: seq<Incident>)
    requires multiset(a) == multiset(b) && UniqueIds(a)
    ensures Acceptable(policy, a) <==> Acceptable(policy, b)
    ensures Acceptable(policy, a) ==> Assigned(policy, a) == Assigned(policy, b)
    ensures Acceptable(policy, a)
      ==> forall g, h | Groups(Assigned(policy, a), a, g) && Groups(Assigned(policy, b), b, h) :: g == h
    ensures Acceptable(policy, a) ==> forall m, n | Counts(Assigned(policy, a), m) && Counts(Assigned(policy, b), n) ::
      m == n
  {
    PermutedIds(a, b);
    AcceptanceIsExact(policy, a);
    AcceptanceIsExact(policy, b);
    if Acceptable(policy, a) {
      SameAssignments(policy, a, b);
      forall g, h | Groups(Assigned(policy, a), a, g) && Groups(Assigned(policy, b), b, h) ensures g == h {
        SameGroups(Assigned(policy, a), a, b, g, h);
      }
      forall m, n | Counts(Assigned(policy, a), m) && Counts(Assigned(policy, b), n) ensures m == n {
        assert m.Keys == n.Keys;
      }
    }
  }

  lemma SameGroups(splitOf: map<string, string>, a: seq<Incident>, b: seq<Incident>, g: map<string, set<string>>,
      h: map<string, set<string>>)
    requires (forall x :: x in a <==> x in b) && (forall x | x in a :: x.id in splitOf)
    requires Groups(splitOf, a, g) && Groups(splitOf, b, h)
    ensures g == h
  {
    forall s ensures LinksIn(splitOf, a, s) == LinksIn(splitOf, b, s) {}
    assert g.Keys == h.Keys;
  }
}
