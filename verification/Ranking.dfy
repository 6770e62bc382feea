/** Localization metrics: the average-tie rank of the faulted link and the pooled pairwise AUROC. */
module Ranking {
  import opened Sequences

  /** One incident's scores: distinct links, a score for each, and the faulted one. */
  datatype Incident = Incident(links: seq<string>, score: map<string, real>, target: string) {
    ghost predicate Valid() {
      && (forall i, j | 0 <= i < j < |links| :: links[i] != links[j])
      && (forall l | l in links :: l in score) && target in links
    }
  }

  /** What eval_ranks keeps of an incident: the rank, the faulted link's score and the other links' scores. */
  datatype Row = Row(rank: real, faulted: real, peers: seq<real>)

  function Above(x: real): real -> bool { (y: real) => y > x }
  function Below(x: real): real -> bool { (y: real) => y < x }
  function Same(x: real): real -> bool { (y: real) => y == x }

  function Scores(links: seq<string>, score: map<string, real>): seq<real>
    requires forall l | l in links :: l in score
  {
    seq(|links|, i requires 0 <= i < |links| => score[links[i]])
  }

  /** The scores of the links other than the target, in order. */
  function Peers(links: seq<string>, score: map<string, real>, target: string): seq<real>
    requires forall l | l in links :: l in score
  {
    if links == [] then []
    else
      var n := |links| - 1;
      Peers(links[..n], score, target) + if links[n] == target then [] else [score[links[n]]]
  }

  /** The rank of a value among scores: one more than those above, plus half of those tied besides itself. */
  function AverageRank(scores: seq<real>, x: real): real {
    Count(scores, Above(x)) as real + 1.0 + (Count(scores, Same(x)) as real - 1.0) / 2.0
  }

  function RowOf(inc: Incident): Row
    requires inc.Valid()
  {
    var x := inc.score[inc.target];
    Row(AverageRank(Scores(inc.links, inc.score), x), x, Peers(inc.links, inc.score, inc.target))
  }

  method EvalRank(inc: Incident) returns (row: Row)
    requires inc.Valid()
    ensures row == RowOf(inc)
  {
    var x := inc.score[inc.target];
    var higher, tied := 0, 0;
    var peers: seq<real> := [];
    ghost var scores := Scores(inc.links, inc.score);
    for i := 0 to |inc.links|
      invariant higher == Count(scores[..i], Above(x)) && tied == Count(scores[..i], Same(x))
      invariant peers == Peers(inc.links[..i], inc.score, inc.target)
    {
      var y := inc.score[inc.links[i]];
      assert scores[..i + 1][..i] == scores[..i] && inc.links[..i + 1][..i] == inc.links[..i];
      if y > x { higher := higher + 1; }
      if y == x { tied := tied + 1; }
      if inc.links[i] != inc.target { peers := peers + [y]; }
    }
    assert scores[..|scores|] == scores && inc.links[..|inc.links|] == inc.links;
    row := Row(higher as real + 1.0 + (tied as real - 1.0) / 2.0, x, peers);
  }

  method EvalRanks(test: seq<Incident>) returns (rows: seq<Row>)
    requires forall inc | inc in test :: inc.Valid()
    ensures |rows| == |test| && forall i | 0 <= i < |test| :: rows[i] == RowOf(test[i])
  {
    rows := [];
    for i := 0 to |test|
      invariant |rows| == i && forall k | 0 <= k < i :: rows[k] == RowOf(test[k])
    {
      var row := EvalRank(test[i]);
      rows := rows + [row];
    }
  }

  // ----- AUROC -----

  /** Pairs won: positives above negatives. */
  function Wins(pos: seq<real>, neg: seq<real>): nat {
    if pos == [] then 0 else Wins(pos[..|pos| - 1], neg) + Count(neg, Below(pos[|pos| - 1]))
  }

  function Ties(pos: seq<real>, neg: seq<real>): nat {
    if pos == [] then 0 else Ties(pos[..|pos| - 1], neg) + Count(neg, Same(pos[|pos| - 1]))
  }

  function Area(pos: seq<real>, neg: seq<real>): real {
    if pos == [] || neg == [] then 0.5
    else Share(Points(Wins(pos, neg), Ties(pos, neg)), |pos| * |neg|)
  }

  /** A win counts one, a tie one half. */
  function Points(wins: nat, ties: nat): real { wins as real + 0.5 * ties as real }

  function Share(score: real, pairs: nat): real { if pairs == 0 then 0.5 else score / pairs as real }

  function FaultedScore(): Row -> seq<real> { (r: Row) => [r.faulted] }
  function PeerScores(): Row -> seq<real> { (r: Row) => r.peers }

  function Auroc(rows: seq<Row>): real { Area(FlatMap(rows, FaultedScore()), FlatMap(rows, PeerScores())) }

  /** The nested loops over positives and negatives. */
  method CountPairs(pos: seq<real>, neg: seq<real>) returns (w: nat, t: nat)
    ensures w == Wins(pos, neg) && t == Ties(pos, neg)
  {
    w, t := 0, 0;
    for i := 0 to |pos|
      invariant w == Wins(pos[..i], neg) && t == Ties(pos[..i], neg)
    {
      var p, won, tied := pos[i], 0, 0;
      for j := 0 to |neg|
        invariant won == Count(neg[..j], Below(p)) && tied == Count(neg[..j], Same(p))
      {
        assert neg[..j + 1][..j] == neg[..j];
        if p > neg[j] { won := won + 1; }
        if p == neg[j] { tied := tied + 1; }
      }
      assert neg[..|neg|] == neg;
      assert pos[..i + 1][..i] == pos[..i];
      w, t := w + won, t + tied;
    }
    assert pos[..|pos|] == pos;
  }

  /** All faulted scores, and all peer scores. */
  method Pool(rows: seq<Row>) returns (pos: seq<real>, neg: seq<real>)
    ensures pos == FlatMap(rows, FaultedScore()) && neg == FlatMap(rows, PeerScores())
  {
    pos, neg := [], [];
    for i := 0 to |rows|
      invariant pos == FlatMap(rows[..i], FaultedScore()) && neg == FlatMap(rows[..i], PeerScores())
    {
      assert rows[..i + 1][..i] == rows[..i];
      pos, neg := pos + [rows[i].faulted], neg + rows[i].peers;
    }
    assert rows[..|rows|] == rows;
  }

  method ComputeAuroc(rows: seq<Row>) returns (a: real)
    ensures a == Auroc(rows)
  {
    var pos, neg := Pool(rows);
    if pos == [] || neg == [] { return 0.5; }
    var w, t := CountPairs(pos, neg);
    a := Share(Points(w, t), |pos| * |neg|);
  }

  // ----- pooled AUROC -----

  lemma {:induction false} CountSplits(s: seq<real>, x: real)
    ensures Count(s, Above(x)) + Count(s, Same(x)) + Count(s, Below(x)) == |s|
  {
    if s != [] { CountSplits(s[..|s| - 1], x); }
  }

  lemma PairsPositive(a: nat, b: nat)
    requires a > 0 && b > 0
    ensures a * b > 0
  {
  }

  lemma Distribute(a: nat, b: nat)
    ensures (a - 1) * b + b == a * b
  {
  }

  /** Positives lost to negatives, pair by pair. */
  function Losses(pos: seq<real>, neg: seq<real>): nat {
    if pos == [] then 0 else Losses(pos[..|pos| - 1], neg) + Count(neg, Above(pos[|pos| - 1]))
  }

  lemma {:induction false} EveryPairCounts(pos: seq<real>, neg: seq<real>)
    ensures Wins(pos, neg) + Ties(pos, neg) + Losses(pos, neg) == |pos| * |neg|
  {
    if pos != [] {
      EveryPairCounts(pos[..|pos| - 1], neg);
      CountSplits(neg, pos[|pos| - 1]);
      Distribute(|pos|, |neg|);
    }
  }

  /** One more negative adds its own pairs. */
  lemma {:induction false} AddNegative(pos: seq<real>, neg: seq<real>, y: real)
    ensures Losses(pos, neg + [y]) == Losses(pos, neg) + Count(pos, Below(y))
    ensures Ties(pos, neg + [y]) == Ties(pos, neg) + Count(pos, Same(y))
  {
    if pos != [] {
      var x := pos[|pos| - 1];
      AddNegative(pos[..|pos| - 1], neg, y);
      CountAppend(neg, y, Above(x));
      CountAppend(neg, y, Same(x));
    }
  }

  lemma {:induction false} NoNegatives(pos: seq<real>)
    ensures Losses(pos, []) == 0 && Ties(pos, []) == 0
  {
    if pos != [] { NoNegatives(pos[..|pos| - 1]); }
  }

  /** Seen from the negatives, a loss is a win and a tie stays a tie. */
  lemma {:induction false} RolesSwap(pos: seq<real>, neg: seq<real>)
    ensures Losses(pos, neg) == Wins(neg, pos) && Ties(pos, neg) == Ties(neg, pos)
  {
    if neg == [] {
      NoNegatives(pos);
    } else {
      var n := |neg| - 1;
      RolesSwap(pos, neg[..n]);
      AddNegative(pos, neg[..n], neg[n]);
      assert neg[..n] + [neg[n]] == neg;
    }
  }

  lemma DivideUnique(a: real, n: real, x: real)
    requires n > 0.0 && x * n == a
    ensures a / n == x
  {
    assert (a / n - x) * n == 0.0;
  }

  lemma DivideNonNegative(a: real, n: real)
    requires a >= 0.0 && n > 0.0
    ensures a / n >= 0.0
  {
    assert a / n * n == a;
  }

  lemma PartsOfOne(a: real, b: real, n: real)
    requires a >= 0.0 && b >= 0.0 && a + b == n > 0.0
    ensures 0.0 <= a / n <= 1.0 && a / n + b / n == 1.0
  {
    DivideNonNegative(a, n);
    DivideNonNegative(b, n);
    var y := b / n;
    assert y * n == b;
    DivideUnique(a, n, 1.0 - y);
  }

  lemma PointsShare(wins: nat, ties: nat, losses: nat, pairs: nat)
    requires wins + ties + losses == pairs > 0
    ensures 0.0 <= Share(Points(wins, ties), pairs) <= 1.0
    ensures Share(Points(wins, ties), pairs) + Share(Points(losses, ties), pairs) == 1.0
  {
    PartsOfOne(Points(wins, ties), Points(losses, ties), pairs as real);
  }

  lemma HalfShare(pairs: nat)
    ensures Share(0.5 * pairs as real, pairs) == 0.5
  {
    if pairs > 0 { HalfOf(pairs as real); }
  }

  lemma HalfOf(x: real)
    requires x > 0.0
    ensures 0.5 * x / x == 0.5
  {
  }

  /** Pooled AUROC is a probability. */
  lemma AreaIsProbability(pos: seq<real>, neg: seq<real>)
    ensures 0.0 <= Area(pos, neg) <= 1.0
  {
    hide Share, Points, Wins, Ties, Losses;
    if pos != [] && neg != [] {
      EveryPairCounts(pos, neg);
      PairsPositive(|pos|, |neg|);
      PointsShare(Wins(pos, neg), Ties(pos, neg), Losses(pos, neg), |pos| * |neg|);
    }
  }

  /** Swapping the faulted and peer roles complements it. */
  lemma SwappedRolesSumToOne(pos: seq<real>, neg: seq<real>)
    ensures Area(pos, neg) + Area(neg, pos) == 1.0
  {
    hide Share, Points, Wins, Ties, Losses;
    if pos != [] && neg != [] {
      EveryPairCounts(pos, neg);
      RolesSwap(pos, neg);
      PairsPositive(|pos|, |neg|);
      PointsShare(Wins(pos, neg), Ties(pos, neg), Losses(pos, neg), |pos| * |neg|);
      assert |neg| * |pos| == |pos| * |neg|;
    }
  }

  lemma {:induction false} CountAll(s: seq<real>, p: real -> bool)
    requires forall i | 0 <= i < |s| :: p(s[i])
    ensures Count(s, p) == |s|
  {
    if s != [] { CountAll(s[..|s| - 1], p); }
  }

  ghost predicate AllEqual(s: seq<real>, x: real) { forall i | 0 <= i < |s| :: s[i] == x }

  lemma {:induction false} AllTied(pos: seq<real>, neg: seq<real>, x: real)
    requires AllEqual(pos, x) && AllEqual(neg, x)
    ensures Ties(pos, neg) == |pos| * |neg|
  {
    if pos != [] {
      AllTied(pos[..|pos| - 1], neg, x);
      CountAll(neg, Same(pos[|pos| - 1]));
      Distribute(|pos|, |neg|);
    }
  }

  /** Scores that cannot tell links apart score exactly one half. */
  lemma TiesAreChance(pos: seq<real>, neg: seq<real>, x: real)
    requires AllEqual(pos, x) && AllEqual(neg, x)
    ensures Area(pos, neg) == 0.5
  {
    AllTied(pos, neg, x);
    EveryPairCounts(pos, neg);
    HalfShare(|pos| * |neg|);
  }

  function Mapped(s: seq<real>, f: real -> real): seq<real> { seq(|s|, i requires 0 <= i < |s| => f(s[i])) }

  ghost predicate Increasing(f: real -> real) { forall x, y :: x < y ==> f(x) < f(y) }

  lemma {:induction false} CountMapped(s: seq<real>, x: real, f: real -> real)
    requires Increasing(f)
    ensures Count(Mapped(s, f), Below(f(x))) == Count(s, Below(x))
    ensures Count(Mapped(s, f), Same(f(x))) == Count(s, Same(x))
  {
    if s != [] {
      var n := |s| - 1;
      CountMapped(s[..n], x, f);
      assert Mapped(s, f)[..n] == Mapped(s[..n], f);
      var y := s[n];
      assert y < x ==> f(y) < f(x);
      assert x < y ==> f(x) < f(y);
    }
  }

  lemma {:induction false} PairsMapped(pos: seq<real>, neg: seq<real>, f: real -> real)
    requires Increasing(f)
    ensures Wins(Mapped(pos, f), Mapped(neg, f)) == Wins(pos, neg)
    ensures Ties(Mapped(pos, f), Mapped(neg, f)) == Ties(pos, neg)
  {
    if pos != [] {
      var n := |pos| - 1;
      PairsMapped(pos[..n], neg, f);
      assert Mapped(pos, f)[..n] == Mapped(pos[..n], f);
      CountMapped(neg, pos[n], f);
    }
  }

  /** Only the order of the scores matters: any strictly increasing rescaling leaves the AUROC alone. */
  lemma RescalingChangesNothing(pos: seq<real>, neg: seq<real>, f: real -> real)
    requires Increasing(f)
    ensures Area(Mapped(pos, f), Mapped(neg, f)) == Area(pos, neg)
  {
    PairsMapped(pos, neg, f);
  }

  /** The same incident with every score rescaled. */
  function Rescaled(inc: Incident, f: real -> real): Incident {
    inc.(score := map l | l in inc.score :: f(inc.score[l]))
  }

  function Rows(test: seq<Incident>): seq<Row>
    requires forall inc | inc in test :: inc.Valid()
  {
    seq(|test|, i requires 0 <= i < |test| => RowOf(test[i]))
  }

  function RescaledAll(test: seq<Incident>, f: real -> real): seq<Incident> {
    seq(|test|, i requires 0 <= i < |test| => Rescaled(test[i], f))
  }

  lemma {:induction false} PeersMapped(links: seq<string>, score: map<string, real>, target: string, f: real -> real)
    requires forall l | l in links :: l in score
    ensures var rescaled := map l | l in score :: f(score[l]);
      Peers(links, rescaled, target) == Mapped(Peers(links, score, target), f)
  {
    if links != [] {
      var n := |links| - 1;
      PeersMapped(links[..n], score, target, f);
      var front := Peers(links[..n], score, target);
      assert Mapped(front + [score[links[n]]], f) == Mapped(front, f) + [f(score[links[n]])];
      assert front + [] == front && Mapped(front, f) + [] == Mapped(front, f);
    }
  }

  /** Rescaling keeps an incident's rank and rescales the scores its row carries. */
  lemma RescaledRow(inc: Incident, f: real -> real)
    requires inc.Valid() && Increasing(f)
    ensures Rescaled(inc, f).Valid()
    ensures RowOf(Rescaled(inc, f)) == Row(RowOf(inc).rank, f(RowOf(inc).faulted), Mapped(RowOf(inc).peers, f))
  {
    var scores, x := Scores(inc.links, inc.score), inc.score[inc.target];
    PeersMapped(inc.links, inc.score, inc.target, f);
    assert Scores(inc.links, Rescaled(inc, f).score) == Mapped(scores, f);
    CountMapped(scores, x, f);
    CountSplits(scores, x);
    CountSplits(Mapped(scores, f), f(x));
    hide Count, Peers, Increasing;
  }

  lemma RescaledValid(test: seq<Incident>, f: real -> real)
    requires (forall inc | inc in test :: inc.Valid()) && Increasing(f)
    ensures forall inc | inc in RescaledAll(test, f) :: inc.Valid()
  {
    forall inc | inc in RescaledAll(test, f) ensures inc.Valid() {
      var k :| 0 <= k < |test| && inc == Rescaled(test[k], f);
      RescaledRow(test[k], f);
    }
  }

  lemma MappedConcat(a: seq<real>, b: seq<real>, f: real -> real)
    ensures Mapped(a + b, f) == Mapped(a, f) + Mapped(b, f)
    ensures |b| == 1 ==> Mapped(b, f) == [f(b[0])]
  {
  }

  ghost predicate PoolsMapped(rows: seq<Row>, rescaled: seq<Row>, f: real -> real) {
    && FlatMap(rescaled, FaultedScore()) == Mapped(FlatMap(rows, FaultedScore()), f)
    && FlatMap(rescaled, PeerScores()) == Mapped(FlatMap(rows, PeerScores()), f)
  }

  lemma PoolOneMore(rows: seq<Row>, rescaled: seq<Row>, row: Row, f: real -> real)
    requires PoolsMapped(rows, rescaled, f)
    ensures PoolsMapped(rows + [row], rescaled + [Row(row.rank, f(row.faulted), Mapped(row.peers, f))], f)
  {
    var after := Row(row.rank, f(row.faulted), Mapped(row.peers, f));
    FlatMapAppend(rows, row, FaultedScore());
    FlatMapAppend(rows, row, PeerScores());
    FlatMapAppend(rescaled, after, FaultedScore());
    FlatMapAppend(rescaled, after, PeerScores());
    MappedConcat(FlatMap(rows, FaultedScore()), [row.faulted], f);
    MappedConcat(FlatMap(rows, PeerScores()), row.peers, f);
    hide FlatMap, Mapped;
  }

  lemma RowsLast(test: seq<Incident>)
    requires test != [] && forall inc | inc in test :: inc.Valid()
    ensures var n := |test| - 1; Rows(test) == Rows(test[..n]) + [RowOf(test[n])]
  {
  }

  lemma {:induction false} PooledMapped(test: seq<Incident>, f: real -> real)
    requires (forall inc | inc in test :: inc.Valid()) && Increasing(f)
    ensures forall inc | inc in RescaledAll(test, f) :: inc.Valid()
    ensures PoolsMapped(Rows(test), Rows(RescaledAll(test, f)), f)
  {
    RescaledValid(test, f);
    if test != [] {
      var n, rescaled := |test| - 1, RescaledAll(test, f);
      PooledMapped(test[..n], f);
      RescaledRow(test[n], f);
      assert rescaled[..n] == RescaledAll(test[..n], f);
      RowsLast(test);
      RowsLast(rescaled);
      PoolOneMore(Rows(test[..n]), Rows(rescaled[..n]), RowOf(test[n]), f);
      hide PoolsMapped, RowOf, Rescaled, Increasing;
    }
  }

  /** Any strictly increasing rescaling of every score leaves all ranks and the pooled AUROC of a test set alone. */
  lemma RescalingIncidentsChangesNothing(test: seq<Incident>, f: real -> real)
    requires (forall inc | inc in test :: inc.Valid()) && Increasing(f)
    ensures forall inc | inc in RescaledAll(test, f) :: inc.Valid()
    ensures Auroc(Rows(RescaledAll(test, f))) == Auroc(Rows(test))
    ensures forall i | 0 <= i < |test| :: Rows(RescaledAll(test, f))[i].rank == Rows(test)[i].rank
  {
    PooledMapped(test, f);
    RescalingChangesNothing(FlatMap(Rows(test), FaultedScore()), FlatMap(Rows(test), PeerScores()), f);
    forall i | 0 <= i < |test| ensures Rows(RescaledAll(test, f))[i].rank == Rows(test)[i].rank {
      RescaledRow(test[i], f);
    }
  }

  // ----- rank and AUROC of one incident -----

  lemma LastScore(links: seq<string>, score: map<string, real>, target: string)
    requires links != [] && forall l | l in links :: l in score
    ensures var n := |links| - 1; var front := links[..n];
      && Scores(links, score) == Scores(front, score) + [score[links[n]]]
      && Peers(links, score, target) == Peers(front, score, target)
         + if links[n] == target then [] else [score[links[n]]]
  {
  }

  lemma LastLink(links: seq<string>, target: string)
    requires links != [] && forall i, j | 0 <= i < j < |links| :: links[i] != links[j]
    ensures var n := |links| - 1;
      && (target in links <==> target in links[..n] || target == links[n])
      && (target == links[n] ==> target !in links[..n])
  {
  }

  lemma {:induction false} PeersCount(links: seq<string>, score: map<string, real>, target: string, p: real -> bool)
    requires (forall l | l in links :: l in score) && forall i, j | 0 <= i < j < |links| :: links[i] != links[j]
    ensures Count(Peers(links, score, target), p)
         == Count(Scores(links, score), p) - if target in links && p(score[target]) then 1 else 0
    ensures |Peers(links, score, target)| == |links| - if target in links then 1 else 0
  {
    if links != [] {
      var n := |links| - 1;
      var front := links[..n];
      PeersCount(front, score, target, p);
      LastScore(links, score, target);
      LastLink(links, target);
      hide Count, Peers, Scores;
      CountAppend(Scores(front, score), score[links[n]], p);
      CountAppend(Peers(front, score, target), score[links[n]], p);
      assert Peers(front, score, target) + [] == Peers(front, score, target);
    }
  }

  lemma RankIdentity(below: nat, tied: nat, above: nat, m: nat)
    requires m >= 2 && tied >= 1 && below + tied + above == m
    ensures Share(Points(below, tied - 1), m - 1)
         == (m as real - (above as real + 1.0 + (tied as real - 1.0) / 2.0)) / (m as real - 1.0)
  {
  }

  lemma SingleRow(row: Row)
    ensures Auroc([row]) == Area([row.faulted], row.peers)
  {
    FlatMapAppend([], row, FaultedScore());
    FlatMapAppend([], row, PeerScores());
    assert [] + [row] == [row] && [] + row.peers == row.peers && [] + [row.faulted] == [row.faulted];
  }

  lemma SinglePositive(x: real, neg: seq<real>)
    ensures Wins([x], neg) == Count(neg, Below(x)) && Ties([x], neg) == Count(neg, Same(x))
  {
    assert [x][..0] == [];
  }

  /** For one incident of m >= 2 links the AUROC is the rank rescaled: rank 1 gives 1, rank m gives 0. */
  lemma AurocIsRescaledRank(inc: Incident)
    requires inc.Valid() && |inc.links| >= 2
    ensures Auroc([RowOf(inc)]) == (|inc.links| as real - RowOf(inc).rank) / (|inc.links| as real - 1.0)
  {
    var row, scores, x := RowOf(inc), Scores(inc.links, inc.score), inc.score[inc.target];
    SingleRow(row);
    SinglePositive(x, row.peers);
    PeersCount(inc.links, inc.score, inc.target, Below(x));
    PeersCount(inc.links, inc.score, inc.target, Same(x));
    CountSplits(scores, x);
    var below, tied, above := Count(scores, Below(x)), Count(scores, Same(x)), Count(scores, Above(x));
    assert tied >= 1 && Wins([x], row.peers) == below && Ties([x], row.peers) == tied - 1;
    RankIdentity(below, tied, above, |inc.links|);
    assert 1 * |row.peers| == |inc.links| - 1;
  }

  // ----- ranks add up -----

  /** The ranks of the given values among the scores, summed. */
  function RankSum(values: seq<real>, scores: seq<real>): real {
    if values == [] then 0.0 else RankSum(values[..|values| - 1], scores) + AverageRank(scores, values[|values| - 1])
  }

  lemma {:induction false} RankSumCounts(values: seq<real>, scores: seq<real>)
    ensures RankSum(values, scores)
      == Losses(values, scores) as real + 0.5 * |values| as real + 0.5 * Ties(values, scores) as real
  {
    if values != [] { RankSumCounts(values[..|values| - 1], scores); }
  }

  /**
    Ranked one by one, the links of an incident share out the ranks 1 to m: whatever the ties, they sum to m (m + 1) /
    2.
  */
  lemma RanksAreShared(scores: seq<real>)
    ensures RankSum(scores, scores) == (|scores| * |scores| + |scores|) as real / 2.0
  {
    RankSumCounts(scores, scores);
    EveryPairCounts(scores, scores);
    RolesSwap(scores, scores);
  }
}
