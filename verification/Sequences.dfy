/**
  Shared sequence vocabulary: options, filtering, counting, and the stable sort that `sorted(..., key=...)` performs.
*/
module Sequences {

  datatype Option<+T> = None | Some(value: T)

  /** The elements that satisfy p, in order: a list comprehension with a condition. */
  function Filter<T>(s: seq<T>, p: T -> bool): seq<T> {
    if s == [] then [] else Filter(s[..|s| - 1], p) + if p(s[|s| - 1]) then [s[|s| - 1]] else []
  }

  /** What is kept is exactly the elements that satisfy p. */
  lemma {:induction false} FilterMembers<T>(s: seq<T>, p: T -> bool)
    ensures |Filter(s, p)| <= |s|
    ensures forall x | x in Filter(s, p) :: x in s && p(x)
    ensures forall x | x in s && p(x) :: x in Filter(s, p)
  {
    if s != [] {
      FilterMembers(s[..|s| - 1], p);
      assert forall x | x in s :: x in s[..|s| - 1] || x == s[|s| - 1];
    }
  }

  lemma {:induction false} FilterTwice<T>(s: seq<T>, p: T -> bool)
    ensures Filter(Filter(s, p), p) == Filter(s, p)
  {
    if s != [] {
      var n := |s| - 1;
      FilterTwice(s[..n], p);
      FilterAppend(Filter(s[..n], p), s[n], p);
      assert Filter(s[..n], p) + [] == Filter(s[..n], p);
    }
  }

  lemma FilterAppend<T>(s: seq<T>, x: T, p: T -> bool)
    ensures Filter(s + [x], p) == Filter(s, p) + if p(x) then [x] else []
  {
    assert (s + [x])[..|s|] == s;
  }

  lemma {:induction false} FilterConcat<T>(a: seq<T>, b: seq<T>, p: T -> bool)
    ensures Filter(a + b, p) == Filter(a, p) + Filter(b, p)
  {
    if b == [] {
      assert a + b == a;
    } else {
      var n := |b| - 1;
      FilterConcat(a, b[..n], p);
      assert a + b == (a + b[..n]) + [b[n]];
      FilterAppend(a + b[..n], b[n], p);
    }
  }

  lemma FilterCons<T>(x: T, s: seq<T>, p: T -> bool)
    ensures Filter([x] + s, p) == if p(x) then [x] + Filter(s, p) else Filter(s, p)
  {
    FilterConcat([x], s, p);
    FilterAppend([], x, p);
    assert [] + [x] == [x];
  }

  lemma FilterHead<T>(s: seq<T>, p: T -> bool)
    requires s != []
    ensures Filter(s, p) == if p(s[0]) then [s[0]] + Filter(s[1..], p) else Filter(s[1..], p)
  {
    FilterCons(s[0], s[1..], p);
    assert s == [s[0]] + s[1..];
  }

  /** The concatenation of f over the elements: nested comprehension, or append in a loop. */
  function FlatMap<T, U>(s: seq<T>, f: T -> seq<U>): seq<U> {
    if s == [] then [] else FlatMap(s[..|s| - 1], f) + f(s[|s| - 1])
  }

  lemma FlatMapAppend<T, U>(s: seq<T>, x: T, f: T -> seq<U>)
    ensures FlatMap(s + [x], f) == FlatMap(s, f) + f(x)
  {
    assert (s + [x])[..|s|] == s;
  }

  lemma {:induction false} FlatMapConcat<T, U>(a: seq<T>, b: seq<T>, f: T -> seq<U>)
    ensures FlatMap(a + b, f) == FlatMap(a, f) + FlatMap(b, f)
  {
    if b == [] {
      assert a + b == a;
    } else {
      var n := |b| - 1;
      FlatMapConcat(a, b[..n], f);
      FlatMapAppend(b[..n], b[n], f);
      FlatMapAppend(a + b[..n], b[n], f);
      hide FlatMap;
      assert a + b == (a + b[..n]) + [b[n]] && b == b[..n] + [b[n]];
    }
  }

  lemma {:induction false} FlatMapMember<T(!new), U(!new)>(s: seq<T>, f: T -> seq<U>, y: U)
    ensures y in FlatMap(s, f) <==> exists x | x in s :: y in f(x)
  {
    if s != [] {
      var n := |s| - 1;
      FlatMapMember(s[..n], f, y);
      assert forall x :: x in s <==> x in s[..n] || x == s[n];
    }
  }

  /** How many elements satisfy p. */
  function Count<T>(s: seq<T>, p: T -> bool): (n: nat)
    ensures n <= |s|
  {
    if s == [] then 0 else Count(s[..|s| - 1], p) + (if p(s[|s| - 1]) then 1 else 0)
  }

  lemma CountAppend<T>(s: seq<T>, x: T, p: T -> bool)
    ensures Count(s + [x], p) == Count(s, p) + (if p(x) then 1 else 0)
  {
    assert (s + [x])[..|s|] == s;
  }

  lemma {:induction false} CountConcat<T>(a: seq<T>, b: seq<T>, p: T -> bool)
    ensures Count(a + b, p) == Count(a, p) + Count(b, p)
  {
    if b == [] {
      assert a + b == a;
    } else {
      var front := b[..|b| - 1];
      assert a + b == (a + front) + [b[|b| - 1]];
      CountAppend(a + front, b[|b| - 1], p);
      CountConcat(a, front, p);
    }
  }

  // ----- stable sorting by a key -----

  function Insert<T>(x: T, s: seq<T>, key: T -> real): (r: seq<T>)
    ensures |r| == |s| + 1
  {
    if s == [] then [x]
    else if key(x) <= key(s[0]) then [x] + s
    else [s[0]] + Insert(x, s[1..], key)
  }

  /** sorted(s, key=key): ties keep their input order. */
  function StableSort<T>(s: seq<T>, key: T -> real): (r: seq<T>)
    ensures |r| == |s|
  {
    if s == [] then [] else Insert(s[0], StableSort(s[1..], key), key)
  }

  ghost predicate SortedBy<T>(s: seq<T>, key: T -> real) {
    forall i, j | 0 <= i < j < |s| :: key(s[i]) <= key(s[j])
  }

  lemma {:induction false} InsertSorted<T(!new)>(x: T, s: seq<T>, key: T -> real)
    requires SortedBy(s, key)
    ensures SortedBy(Insert(x, s, key), key)
    ensures forall y :: y in Insert(x, s, key) <==> y == x || y in s
  {
    if s != [] && key(x) > key(s[0]) {
      InsertSorted(x, s[1..], key);
      var rest := Insert(x, s[1..], key);
      forall y | y in rest ensures key(s[0]) <= key(y) {
        if y != x { assert y in s[1..]; }
      }
    }
  }

  /** Sorting orders by the key and keeps the elements. */
  lemma {:induction false} SortSorts<T(!new)>(s: seq<T>, key: T -> real)
    ensures SortedBy(StableSort(s, key), key)
    ensures forall y :: y in StableSort(s, key) <==> y in s
  {
    if s != [] {
      SortSorts(s[1..], key);
      InsertSorted(s[0], StableSort(s[1..], key), key);
    }
  }

  lemma {:induction false} InsertFilter<T(!new)>(x: T, s: seq<T>, key: T -> real, p: T -> bool)
    requires SortedBy(s, key)
    ensures Filter(Insert(x, s, key), p) == if p(x) then Insert(x, Filter(s, p), key) else Filter(s, p)
  {
    if s == [] || key(x) <= key(s[0]) {
      FilterCons(x, s, p);
      var kept := Filter(s, p);
      if kept != [] {
        FilterMembers(s, p);
        assert kept[0] in kept;
        var k :| 0 <= k < |s| && s[k] == kept[0];
      }
    } else {
      InsertFilter(x, s[1..], key, p);
      FilterCons(s[0], Insert(x, s[1..], key), p);
      FilterHead(s, p);
      assert ([s[0]] + Filter(s[1..], p))[1..] == Filter(s[1..], p);
    }
  }

  /** Stability: sorting commutes with any filter, in particular with keeping the elements of one key. */
  lemma {:induction false} SortFilter<T(!new)>(s: seq<T>, key: T -> real, p: T -> bool)
    ensures Filter(StableSort(s, key), p) == StableSort(Filter(s, p), key)
  {
    if s != [] {
      SortFilter(s[1..], key, p);
      SortSorts(s[1..], key);
      InsertFilter(s[0], StableSort(s[1..], key), key, p);
      FilterHead(s, p);
      assert ([s[0]] + Filter(s[1..], p))[1..] == Filter(s[1..], p);
    }
  }

  lemma {:induction false} FilterAll<T>(s: seq<T>, p: T -> bool)
    requires forall x | x in s :: p(x)
    ensures Filter(s, p) == s
  {
    if s != [] {
      assert forall x | x in s[..|s| - 1] :: x in s;
      FilterAll(s[..|s| - 1], p);
    }
  }

  lemma {:induction false} FilterNone<T>(s: seq<T>, p: T -> bool)
    requires forall x | x in s :: !p(x)
    ensures Filter(s, p) == []
  {
    if s != [] {
      assert forall x | x in s[..|s| - 1] :: x in s;
      FilterNone(s[..|s| - 1], p);
    }
  }

  /** A sequence already in order is left alone. */
  lemma {:induction false} SortIdempotent<T>(s: seq<T>, key: T -> real)
    requires SortedBy(s, key)
    ensures StableSort(s, key) == s
  {
    if |s| > 1 {
      SortIdempotent(s[1..], key);
      assert s[1..][0] == s[1];
    } else if |s| == 1 {
      assert s[1..] == [];
    }
  }

  ghost predicate DistinctBy<T>(s: seq<T>, key: T -> real) {
    forall i, j | 0 <= i < j < |s| :: key(s[i]) != key(s[j])
  }

  lemma {:induction false} InsertDistinct<T(!new)>(x: T, s: seq<T>, key: T -> real)
    requires SortedBy(s, key) && DistinctBy(s, key) && forall y | y in s :: key(y) != key(x)
    ensures DistinctBy(Insert(x, s, key), key)
  {
    if s != [] && key(x) > key(s[0]) {
      assert forall y | y in s[1..] :: y in s;
      InsertDistinct(x, s[1..], key);
      InsertSorted(x, s[1..], key);
      var rest := Insert(x, s[1..], key);
      forall y | y in rest ensures key(s[0]) != key(y) {
        if y != x { var k :| 0 < k < |s| && s[k] == y; }
      }
    }
  }

  /** Sorting keeps keys distinct. */
  lemma {:induction false} SortDistinct<T(!new)>(s: seq<T>, key: T -> real)
    requires DistinctBy(s, key)
    ensures DistinctBy(StableSort(s, key), key)
  {
    if s != [] {
      SortDistinct(s[1..], key);
      SortSorts(s[1..], key);
      forall y | y in StableSort(s[1..], key) ensures key(y) != key(s[0]) {
        var k :| 0 < k < |s| && s[k] == y;
      }
      InsertDistinct(s[0], StableSort(s[1..], key), key);
    }
  }

  lemma {:induction false} InsertCount<T(!new)>(x: T, s: seq<T>, key: T -> real, p: T -> bool)
    ensures Count(Insert(x, s, key), p) == Count(s, p) + (if p(x) then 1 else 0)
  {
    if s != [] && key(x) > key(s[0]) {
      InsertCount(x, s[1..], key, p);
      CountConcat([s[0]], Insert(x, s[1..], key), p);
      CountConcat([s[0]], s[1..], p);
      assert s == [s[0]] + s[1..];
    } else {
      CountConcat([x], s, p);
    }
  }

  /** Sorting keeps how often anything occurs. */
  lemma {:induction false} SortCount<T(!new)>(s: seq<T>, key: T -> real, p: T -> bool)
    ensures Count(StableSort(s, key), p) == Count(s, p)
  {
    if s != [] {
      SortCount(s[1..], key, p);
      InsertCount(s[0], StableSort(s[1..], key), key, p);
      CountConcat([s[0]], s[1..], p);
      assert s == [s[0]] + s[1..];
    }
  }
}
