/**
 Stable sorting by a "comes before" relation, the meaning of `sorted(xs, key=...)`.
 A key tuple becomes a strict weak order; elements that neither precede the other
 keep the order in which they arrived.
 */
module Ordering {

  /** Identifiers are only ever compared for equality and order, so they are integers
      numbered in that order. */
  type Id = int

  ghost predicate StrictWeak<T(!new)>(before: (T, T) -> bool) {
    && (forall x :: !before(x, x))
    && (forall x, y, z :: before(x, y) && before(y, z) ==> before(x, z))
    && (forall x, y, z :: before(x, z) ==> before(x, y) || before(y, z))
  }

  /** No element is followed by one that should have come before it. */
  ghost predicate InOrder<T>(xs: seq<T>, before: (T, T) -> bool) {
    forall i, j :: 0 <= i < j < |xs| ==> !before(xs[j], xs[i])
  }

  predicate Distinct<T(==)>(xs: seq<T>) {
    forall i, j :: 0 <= i < j < |xs| ==> xs[i] != xs[j]
  }

  lemma DistinctMore<T>(xs: seq<T>, x: T)
    requires Distinct(xs) && x !in xs
    ensures Distinct(xs + [x])
  {
    forall i | 0 <= i < |xs| ensures xs[i] != x {
      assert xs[i] in xs;
    }
  }

  function Insert<T>(x: T, xs: seq<T>, before: (T, T) -> bool): (r: seq<T>)
    ensures |r| == |xs| + 1
  {
    if xs == [] || !before(xs[0], x) then [x] + xs
    else [xs[0]] + Insert(x, xs[1..], before)
  }

  function SortBy<T>(xs: seq<T>, before: (T, T) -> bool): (r: seq<T>)
    ensures |r| == |xs|
  {
    if xs == [] then [] else Insert(xs[0], SortBy(xs[1..], before), before)
  }

  lemma {:induction false} InsertKeeps<T>(x: T, xs: seq<T>, before: (T, T) -> bool)
    ensures multiset(Insert(x, xs, before)) == multiset([x]) + multiset(xs)
  {
    if xs == [] || !before(xs[0], x) {
    } else {
      InsertKeeps(x, xs[1..], before);
      assert xs == [xs[0]] + xs[1..];
    }
  }

  lemma {:induction false} SortKeeps<T>(xs: seq<T>, before: (T, T) -> bool)
    ensures multiset(SortBy(xs, before)) == multiset(xs)
    ensures forall x :: x in SortBy(xs, before) <==> x in xs
  {
    if xs == [] {
    } else {
      SortKeeps(xs[1..], before);
      InsertKeeps(xs[0], SortBy(xs[1..], before), before);
      assert xs == [xs[0]] + xs[1..];
    }
    assert multiset(SortBy(xs, before)) == multiset(xs);
    forall x ensures x in SortBy(xs, before) <==> x in xs {
      assert x in multiset(SortBy(xs, before)) <==> x in multiset(xs);
    }
  }

  lemma {:induction false} InsertInOrder<T(!new)>(x: T, xs: seq<T>, before: (T, T) -> bool)
    requires StrictWeak(before) && InOrder(xs, before)
    ensures InOrder(Insert(x, xs, before), before)
  {
    var r := Insert(x, xs, before);
    if xs == [] {
    } else if !before(xs[0], x) {
      forall i, j | 0 <= i < j < |r| ensures !before(r[j], r[i]) {
        if i == 0 && j > 1 {
          assert !before(xs[j - 1], xs[0]);
        }
      }
    } else {
      var t := Insert(x, xs[1..], before);
      InsertInOrder(x, xs[1..], before);
      InsertKeeps(x, xs[1..], before);
      forall i, j | 0 <= i < j < |r| ensures !before(r[j], r[i]) {
        if i == 0 {
          assert r[j] == t[j - 1] && t[j - 1] in multiset(t);
          if r[j] != x {
            assert r[j] in xs[1..];
          }
        }
      }
    }
  }

  lemma {:induction false} SortInOrder<T(!new)>(xs: seq<T>, before: (T, T) -> bool)
    requires StrictWeak(before)
    ensures InOrder(SortBy(xs, before), before)
  {
    if xs == [] {
    } else {
      SortInOrder(xs[1..], before);
      InsertInOrder(xs[0], SortBy(xs[1..], before), before);
    }
  }

  /** Where an element is inserted: behind all that precede it, in front of the first that does not. */
  lemma {:induction false} InsertedAt<T(!new)>(x: T, xs: seq<T>, before: (T, T) -> bool) returns (p: nat)
    ensures p <= |xs| && Insert(x, xs, before) == xs[..p] + [x] + xs[p..]
    ensures (forall i :: 0 <= i < p ==> before(xs[i], x)) && (p < |xs| ==> !before(xs[p], x))
  {
    if xs == [] || !before(xs[0], x) {
      p := 0;
    } else {
      p := InsertedAt(x, xs[1..], before);
      p := p + 1;
    }
  }

  /** The positions of the sorted elements in the original: each once, and in order of key, then of arrival. */
  ghost predicate StablePositions<T(!new)>(xs: seq<T>, before: (T, T) -> bool, sorted: seq<T>, at: seq<nat>) {
    && |at| == |sorted| == |xs|
    && (forall i :: 0 <= i < |at| ==> at[i] < |xs| && sorted[i] == xs[at[i]])
    && (forall i, j :: 0 <= i < j < |at| ==> before(sorted[i], sorted[j]) || (!before(sorted[j], sorted[i]) && at[i] < at[j]))
    && (forall k: nat :: k < |xs| ==> k in at)
  }

  lemma {:induction false} SortIsStable<T(!new)>(xs: seq<T>, before: (T, T) -> bool) returns (at: seq<nat>)
    requires StrictWeak(before)
    ensures StablePositions(xs, before, SortBy(xs, before), at)
  {
    at := [];
    if xs != [] {
      var rest := SortIsStable(xs[1..], before);
      var p := InsertedAt(xs[0], SortBy(xs[1..], before), before);
      SortInOrder(xs[1..], before);
      at := Later(rest)[..p] + [0] + Later(rest)[p..];
      InsertIsStable(xs, before, SortBy(xs[1..], before), rest, p);
    }
  }

  ghost function Later(at: seq<nat>): (r: seq<nat>)
    ensures |r| == |at| && forall i :: 0 <= i < |at| ==> r[i] == at[i] + 1
  {
    seq(|at|, i requires 0 <= i < |at| => at[i] + 1)
  }

  /** `ys` is `xs` with `x` put in at position `p`. */
  ghost predicate PutAt<T>(xs: seq<T>, x: T, p: nat, ys: seq<T>) {
    && p <= |xs| && |ys| == |xs| + 1 && ys[p] == x
    && (forall i :: 0 <= i < p ==> ys[i] == xs[i]) && (forall i :: p < i < |ys| ==> ys[i] == xs[i - 1])
  }

  lemma PositionsHold<T>(xs: seq<T>, sorted: seq<T>, rest: seq<nat>, p: nat, more: seq<T>, at: seq<nat>)
    requires xs != [] && |rest| == |sorted| && (forall i :: 0 <= i < |rest| ==> rest[i] < |xs[1..]| && sorted[i] == xs[1..][rest[i]])
    requires PutAt(sorted, xs[0], p, more) && PutAt(Later(rest), 0, p, at)
    ensures forall i :: 0 <= i < |at| ==> at[i] < |xs| && more[i] == xs[at[i]]
  {
    forall i | 0 <= i < |at| ensures at[i] < |xs| && more[i] == xs[at[i]] {
      if i != p {
        var j := if i < p then i else i - 1;
        assert sorted[j] == xs[1..][rest[j]] == xs[rest[j] + 1];
      }
    }
  }

  lemma PositionsCover(n: nat, rest: seq<nat>, p: nat, at: seq<nat>)
    requires (forall k: nat :: k < n ==> k in rest) && PutAt(Later(rest), 0, p, at)
    ensures forall k: nat :: k < n + 1 ==> k in at
  {
    forall k: nat | k < n + 1 ensures k in at {
      if k == 0 {
        assert at[p] == 0;
      } else {
        assert k - 1 in rest;
        var i :| 0 <= i < |rest| && rest[i] == k - 1;
        assert at[if i < p then i else i + 1] == Later(rest)[i];
      }
    }
  }

  lemma PositionsRise<T(!new)>(before: (T, T) -> bool, x: T, sorted: seq<T>, rest: seq<nat>, p: nat, more: seq<T>, at: seq<nat>)
    requires StrictWeak(before) && InOrder(sorted, before) && |rest| == |sorted|
    requires forall i, j :: 0 <= i < j < |rest| ==> before(sorted[i], sorted[j]) || (!before(sorted[j], sorted[i]) && rest[i] < rest[j])
    requires p <= |sorted| && (forall i :: 0 <= i < p ==> before(sorted[i], x)) && (p < |sorted| ==> !before(sorted[p], x))
    requires PutAt(sorted, x, p, more) && PutAt(Later(rest), 0, p, at)
    ensures forall i, j :: 0 <= i < j < |at| ==> before(more[i], more[j]) || (!before(more[j], more[i]) && at[i] < at[j])
  {
    forall i | p <= i < |sorted| ensures !before(sorted[i], x) {
      assert i > p ==> !before(sorted[i], sorted[p]);
    }
    forall i, j | 0 <= i < j < |at| ensures before(more[i], more[j]) || (!before(more[j], more[i]) && at[i] < at[j]) {
      if i != p && j != p {
        var k, l := if i < p then i else i - 1, if j < p then j else j - 1;
        assert before(sorted[k], sorted[l]) || (!before(sorted[l], sorted[k]) && rest[k] < rest[l]);
      }
    }
  }

  lemma InsertIsStable<T(!new)>(xs: seq<T>, before: (T, T) -> bool, sorted: seq<T>, rest: seq<nat>, p: nat)
    requires xs != [] && StrictWeak(before) && InOrder(sorted, before) && StablePositions(xs[1..], before, sorted, rest)
    requires p <= |sorted| && (forall i :: 0 <= i < p ==> before(sorted[i], xs[0])) && (p < |sorted| ==> !before(sorted[p], xs[0]))
    ensures StablePositions(xs, before, sorted[..p] + [xs[0]] + sorted[p..], Later(rest)[..p] + [0] + Later(rest)[p..])
  {
    var more, at := sorted[..p] + [xs[0]] + sorted[p..], Later(rest)[..p] + [0] + Later(rest)[p..];
    assert PutAt(sorted, xs[0], p, more) && PutAt(Later(rest), 0, p, at);
    PositionsHold(xs, sorted, rest, p, more, at);
    PositionsCover(|xs| - 1, rest, p, at);
    PositionsRise(before, xs[0], sorted, rest, p, more, at);
  }

  lemma DistinctFromMultiset<T>(xs: seq<T>, ys: seq<T>)
    requires multiset(xs) == multiset(ys) && Distinct(xs)
    ensures Distinct(ys)
  {
    forall i, j | 0 <= i < j < |ys| ensures ys[i] != ys[j] {
      if ys[i] == ys[j] {
        var v := ys[i];
        assert ys == ys[..i] + [v] + ys[i + 1..j] + [v] + ys[j + 1..];
        assert multiset(ys)[v] >= 2;
        DistinctCounts(xs, v);
      }
    }
  }

  lemma {:induction false} DistinctCounts<T>(xs: seq<T>, v: T)
    requires Distinct(xs)
    ensures multiset(xs)[v] <= 1
  {
    if xs == [] {
    } else {
      assert xs == [xs[0]] + xs[1..];
      DistinctCounts(xs[1..], v);
    }
  }

  /** The elements of a sequence as a set. */
  function Elements<T>(xs: seq<T>): set<T> {
    set x | x in xs
  }

  lemma {:induction false} DistinctSize<T>(xs: seq<T>)
    requires Distinct(xs)
    ensures |Elements(xs)| == |xs|
  {
    if xs == [] {
    } else {
      DistinctSize(xs[1..]);
      assert Elements(xs) == {xs[0]} + Elements(xs[1..]);
    }
  }

  lemma {:induction false} SubsetSize<T>(a: set<T>, b: set<T>)
    requires a <= b
    ensures |a| <= |b|
    decreases |a|
  {
    if a != {} {
      var x :| x in a;
      SubsetSize(a - {x}, b - {x});
    }
  }

  lemma SmallerSet<T>(rest: set<T>, all: set<T>, x: T)
    requires rest <= all && x in all && x !in rest
    ensures |rest| < |all|
  {
    SubsetSize(rest, all - {x});
  }

  /** Everything the callers need to know about one sort of distinct elements. */
  lemma SortDistinct<T(!new)>(xs: seq<T>, before: (T, T) -> bool)
    requires StrictWeak(before) && Distinct(xs)
    ensures InOrder(SortBy(xs, before), before) && Distinct(SortBy(xs, before))
    ensures Elements(SortBy(xs, before)) == Elements(xs)
  {
    SortInOrder(xs, before);
    SortKeeps(xs, before);
    DistinctFromMultiset(xs, SortBy(xs, before));
  }

  // --- sorted sets of identifiers -------------------------------------------------

  ghost predicate Ascending(xs: seq<int>) {
    forall i, j :: 0 <= i < j < |xs| ==> xs[i] < xs[j]
  }

  lemma AnyOf<T>(s: set<T>) returns (x: T)
    requires s != {}
    ensures x in s
  {
    x :| x in s;
  }

  function Least(s: set<int>): (m: int)
    requires s != {}
    ensures m in s && forall x :: x in s ==> m <= x
  {
    LeastExists(s);
    var m :| m in s && forall x :: x in s ==> m <= x;
    m
  }

  lemma {:induction false} LeastExists(s: set<int>)
    requires s != {}
    ensures exists m :: m in s && forall x :: x in s ==> m <= x
    decreases |s|
  {
    var y := AnyOf(s);
    var rest := s - {y};
    if rest == {} {
      forall x | x in s ensures y <= x { assert x == y || x in rest; }
    } else {
      LeastExists(rest);
      var m :| m in rest && forall x :: x in rest ==> m <= x;
      var least := if m < y then m else y;
      forall x | x in s ensures least <= x { assert x == y || x in rest; }
      assert least in s;
    }
  }

  /** `sorted(set)`. */
  function SortedSet(s: set<int>): (xs: seq<int>)
    ensures Ascending(xs) && Elements(xs) == s && |xs| == |s|
    decreases |s|
  {
    if s == {} then [] else
      var m := Least(s);
      var rest := SortedSet(s - {m});
      SortedCons(m, rest, s);
      [m] + rest
  }

  lemma SortedCons(m: int, rest: seq<int>, s: set<int>)
    requires m in s && Ascending(rest) && Elements(rest) == s - {m}
    requires forall x :: x in s ==> m <= x
    ensures Ascending([m] + rest) && Elements([m] + rest) == s
  {
    var xs := [m] + rest;
    forall i, j | 0 <= i < j < |xs| ensures xs[i] < xs[j] {
      assert xs[j] in Elements(rest);
    }
    forall x ensures x in Elements(xs) <==> x in s {
      assert x in xs <==> x == m || x in rest;
      assert x in rest <==> x in Elements(rest);
    }
  }

  /** `sorted(set, key=...)`, where the key is a strict weak order. */
  lemma ListingFacts(s: set<int>, before: (int, int) -> bool, listed: seq<int>)
    requires StrictWeak(before) && listed == SortBy(SortedSet(s), before)
    ensures Distinct(listed) && InOrder(listed, before)
    ensures forall x :: x in listed <==> x in s
  {
    SortDistinct(SortedSet(s), before);
    assert forall x :: x in listed <==> x in Elements(listed);
    assert forall x :: x in s <==> x in Elements(SortedSet(s));
  }

  /** In a sorted list whatever precedes an element by key stands before it. */
  lemma PrecedingIsEarlier<T(!new)>(xs: seq<T>, before: (T, T) -> bool, i: nat, j: nat)
    requires StrictWeak(before) && InOrder(xs, before) && i < |xs| && j < |xs| && before(xs[j], xs[i])
    ensures j < i
  {
  }
}
