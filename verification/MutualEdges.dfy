/**
 Reciprocal nearest-neighbour edges between sources. The lists the code sorts and cuts are
 related to a definition by counting: a source ranks k-th for another when exactly k-1
 sources are closer to it.
 */
module MutualEdges {
  import opened Ordering
  import opened Numbers

  /** One similarity matrix with the keys of its sources and their local baselines. */
  datatype Matrix = Matrix(keys: seq<Id>, sims: seq<seq<real>>, baselines: seq<real>)

  ghost predicate Square(m: Matrix) {
    && Distinct(m.keys) && |m.sims| == |m.keys| == |m.baselines|
    && forall i :: 0 <= i < |m.sims| ==> |m.sims[i]| == |m.keys|
  }

  datatype Affinity = Affinity(
    left: Id, right: Id, similarity: real, leftRank: nat, rightRank: nat, leftLift: real, rightLift: real)

  /** The gates a pair has to pass; they look at the exact values, an edge records rounded ones. */
  datatype Gate = Gate(topK: nat, threshold: real, minimumLift: real)

  function KeyAt(m: Matrix, i: nat): Id {
    if i < |m.keys| then m.keys[i] else 0
  }

  function SimAt(m: Matrix, i: nat, j: nat): real {
    if i < |m.sims| && j < |m.sims[i]| then m.sims[i][j] else 0.0
  }

  function BaselineAt(m: Matrix, i: nat): real {
    if i < |m.baselines| then m.baselines[i] else 0.0
  }

  // --- the definition by counting ---------------------------------------------------------

  /** `a` comes before `b` in the ranking of `i`: more similar, ties by source key. */
  predicate Nearer(m: Matrix, i: nat, a: nat, b: nat) {
    SimAt(m, i, a) > SimAt(m, i, b) || (SimAt(m, i, a) == SimAt(m, i, b) && KeyAt(m, a) < KeyAt(m, b))
  }

  ghost function Closer(m: Matrix, i: nat, j: nat): set<nat> {
    set a: nat | a < |m.keys| && a != i && Nearer(m, i, a, j)
  }

  ghost predicate InTop(m: Matrix, topK: nat, i: nat, j: nat) {
    i < |m.keys| && j < |m.keys| && i != j && |Closer(m, i, j)| < topK
  }

  ghost predicate PassesFloors(m: Matrix, gate: Gate, l: nat, r: nat) {
    && SimAt(m, l, r) >= gate.threshold
    && SimAt(m, l, r) - BaselineAt(m, l) >= gate.minimumLift
    && SimAt(m, l, r) - BaselineAt(m, r) >= gate.minimumLift
  }

  ghost predicate Mutual(m: Matrix, gate: Gate, l: nat, r: nat) {
    l < r && InTop(m, gate.topK, l, r) && InTop(m, gate.topK, r, l) && PassesFloors(m, gate, l, r)
  }

  ghost function AffinityOf(m: Matrix, l: nat, r: nat): Affinity {
    Affinity(KeyAt(m, l), KeyAt(m, r), Rounded(SimAt(m, l, r)), |Closer(m, l, r)| + 1, |Closer(m, r, l)| + 1,
             Rounded(SimAt(m, l, r) - BaselineAt(m, l)), Rounded(SimAt(m, l, r) - BaselineAt(m, r)))
  }

  ghost predicate Emitted(m: Matrix, gate: Gate, e: Affinity) {
    exists l: nat, r: nat :: Mutual(m, gate, l, r) && e == AffinityOf(m, l, r)
  }

  // --- the rankings ---------------------------------------------------------------------------

  function NearerTo(m: Matrix, i: nat): (nat, nat) -> bool {
    (a: nat, b: nat) => Nearer(m, i, a, b)
  }

  function OthersBelow(i: nat, n: nat): (r: seq<nat>)
    ensures forall a: nat :: a in r <==> a < n && a != i
    ensures Distinct(r)
    ensures i < n ==> |r| == n - 1
    ensures i >= n ==> |r| == n
  {
    if n == 0 then []
    else
      var r := OthersBelow(i, n - 1);
      assert forall k :: 0 <= k < |r| ==> r[k] in r;
      if n - 1 == i then r else r + [n - 1]
  }

  function Ranking(m: Matrix, i: nat): seq<nat> {
    SortBy(OthersBelow(i, |m.keys|), NearerTo(m, i))
  }

  /** The position of a source in the ranking is the number of sources closer than it. */
  lemma RankingCounts(m: Matrix, i: nat, p: nat)
    requires Square(m) && i < |m.keys| && p < |Ranking(m, i)|
    ensures Ranking(m, i)[p] < |m.keys| && Ranking(m, i)[p] != i
    ensures |Closer(m, i, Ranking(m, i)[p])| == p
  {
    var s := Ranking(m, i);
    RankingOrder(m, i);
    forall a: nat ensures a in Closer(m, i, s[p]) <==> a in Elements(s[..p]) {
      if a in s {
        var q :| 0 <= q < |s| && s[q] == a;
        EarlierIsNearer(m, i, q, p);
        assert a in s[..p] <==> q < p;
      }
    }
    assert Closer(m, i, s[p]) == Elements(s[..p]);
    DistinctSize(s[..p]);
    assert s[p] in s;
  }

  lemma EarlierIsNearer(m: Matrix, i: nat, q: nat, p: nat)
    requires Square(m) && i < |m.keys| && q < |Ranking(m, i)| && p < |Ranking(m, i)|
    ensures q < p <==> Nearer(m, i, Ranking(m, i)[q], Ranking(m, i)[p])
  {
    RankingOrder(m, i);
    var s := Ranking(m, i);
    assert s[q] in s && s[p] in s;
    assert q < p ==> !Nearer(m, i, s[p], s[q]);
  }

  lemma RankingOrder(m: Matrix, i: nat)
    requires Square(m) && i < |m.keys|
    ensures InOrder(Ranking(m, i), NearerTo(m, i)) && Distinct(Ranking(m, i))
    ensures |Ranking(m, i)| == |m.keys| - 1
    ensures forall a: nat :: a in Ranking(m, i) <==> a < |m.keys| && a != i
  {
    assert StrictWeak(NearerTo(m, i));
    SortDistinct(OthersBelow(i, |m.keys|), NearerTo(m, i));
    SortKeeps(OthersBelow(i, |m.keys|), NearerTo(m, i));
  }

  /** Being listed among the first k is being in the top k by counting. */
  lemma TopIsCut(m: Matrix, topK: nat, i: nat, j: nat)
    requires Square(m) && i < |m.keys|
    ensures |Ranking(m, i)| == |m.keys| - 1
    ensures var cut := if topK < |m.keys| - 1 then topK else |m.keys| - 1;
            j in Ranking(m, i)[..cut] <==> InTop(m, topK, i, j)
  {
    RankingOrder(m, i);
    var s := Ranking(m, i);
    var cut := if topK < |m.keys| - 1 then topK else |m.keys| - 1;
    if j in s {
      var p :| 0 <= p < |s| && s[p] == j;
      RankingCounts(m, i, p);
      if p < cut {
        assert s[..cut][p] == j;
      } else {
        assert forall q :: 0 <= q < cut ==> s[q] != j;
      }
    }
  }

  /** The edges at one source number at most k, whichever end of the edge it is. */
  lemma DegreeAtMostK(m: Matrix, gate: Gate, i: nat, peers: set<nat>)
    requires Square(m) && i < |m.keys|
    requires forall j :: j in peers ==> Mutual(m, gate, i, j) || Mutual(m, gate, j, i)
    ensures |peers| <= gate.topK
  {
    RankingOrder(m, i);
    var s := Ranking(m, i);
    var cut := if gate.topK < |m.keys| - 1 then gate.topK else |m.keys| - 1;
    forall j | j in peers ensures j in Elements(s[..cut]) {
      TopIsCut(m, gate.topK, i, j);
    }
    DistinctSize(s[..cut]);
    SubsetSize(peers, Elements(s[..cut]));
  }

  /** Raising k and lowering both floors only adds edges. */
  lemma LooserGateAddsEdges(m: Matrix, tight: Gate, broad: Gate, e: Affinity)
    requires tight.topK <= broad.topK && broad.threshold <= tight.threshold && broad.minimumLift <= tight.minimumLift
    requires Emitted(m, tight, e)
    ensures Emitted(m, broad, e)
  {
    var l: nat, r: nat :| Mutual(m, tight, l, r) && e == AffinityOf(m, l, r);
    assert Mutual(m, broad, l, r);
  }

  // --- what an edge is, told from the matrix alone --------------------------------------------------

  /** The other sources more similar to `i` than `j` is, or as similar with a lesser key. */
  ghost function Ahead(m: Matrix, i: nat, j: nat): set<nat>
    requires Square(m) && i < |m.keys| && j < |m.keys|
  {
    set a: nat | a < |m.keys| && a != i && (m.sims[i][a] > m.sims[i][j] || (m.sims[i][a] == m.sims[i][j] && m.keys[a] < m.keys[j]))
  }

  /** The affinity of sources `l` and `r`: each among the first `k` of the other, similar enough, and lifted enough above both baselines. */
  ghost predicate Joins(m: Matrix, gate: Gate, l: nat, r: nat, e: Affinity)
    requires Square(m)
  {
    && l < r < |m.keys| && e.left == m.keys[l] && e.right == m.keys[r]
    && e.leftRank == |Ahead(m, l, r)| + 1 <= gate.topK && e.rightRank == |Ahead(m, r, l)| + 1 <= gate.topK
    && m.sims[l][r] >= gate.threshold
    && m.sims[l][r] - m.baselines[l] >= gate.minimumLift && m.sims[l][r] - m.baselines[r] >= gate.minimumLift
    && e.similarity == Rounded(m.sims[l][r])
    && e.leftLift == Rounded(m.sims[l][r] - m.baselines[l]) && e.rightLift == Rounded(m.sims[l][r] - m.baselines[r])
  }

  lemma CloserIsAhead(m: Matrix, i: nat, j: nat)
    requires Square(m) && i < |m.keys| && j < |m.keys|
    ensures Closer(m, i, j) == Ahead(m, i, j)
  {
  }

  lemma EmittedJoins(m: Matrix, gate: Gate, e: Affinity)
    requires Square(m)
    ensures Emitted(m, gate, e) <==> exists l: nat, r: nat :: Joins(m, gate, l, r, e)
  {
    if Emitted(m, gate, e) {
      var l: nat, r: nat :| Mutual(m, gate, l, r) && e == AffinityOf(m, l, r);
      CloserIsAhead(m, l, r);
      CloserIsAhead(m, r, l);
      assert Joins(m, gate, l, r, e);
    }
    if l: nat, r: nat :| Joins(m, gate, l, r, e) {
      CloserIsAhead(m, l, r);
      CloserIsAhead(m, r, l);
      assert Mutual(m, gate, l, r) && e == AffinityOf(m, l, r);
    }
  }

  /** More similar edges first, as similar ones by the keys of their ends. */
  ghost predicate EdgesListed(edges: seq<Affinity>) {
    forall i, j :: 0 <= i < j < |edges| ==>
      || edges[i].similarity > edges[j].similarity
      || (edges[i].similarity == edges[j].similarity &&
          (edges[i].left < edges[j].left || (edges[i].left == edges[j].left && edges[i].right <= edges[j].right)))
  }

  lemma InOrderIsListed(edges: seq<Affinity>)
    requires InOrder(edges, EdgeBefore)
    ensures EdgesListed(edges)
  {
    forall i, j | 0 <= i < j < |edges| ensures !EdgeBefore(edges[j], edges[i]) {
    }
  }

  // --- the method ---------------------------------------------------------------------------

  predicate EdgeBefore(x: Affinity, y: Affinity) {
    x.similarity > y.similarity ||
    (x.similarity == y.similarity && (x.left < y.left || (x.left == y.left && x.right < y.right)))
  }

  /** Rank maps: the one-based position of each source in the cut ranking. */
  function RankMap(ranked: seq<nat>): (r: map<nat, nat>)
    requires Distinct(ranked)
    ensures forall a: nat :: a in r <==> a in ranked
    ensures forall p :: 0 <= p < |ranked| ==> ranked[p] in r && r[ranked[p]] == p + 1
  {
    map p | 0 <= p < |ranked| :: ranked[p] := p + 1
  }

  method CutRankings(m: Matrix, topK: nat) returns (rankings: seq<seq<nat>>)
    requires Square(m)
    ensures AllCut(m, topK, rankings)
  {
    rankings := [];
    for i := 0 to |m.keys|
      invariant |rankings| == i
      invariant forall j: nat :: j < i ==> Cut(m, topK, j, rankings[j])
    {
      var neighborCount := if topK < |m.keys| - 1 then topK else |m.keys| - 1;
      RankingOrder(m, i);
      var ranked := Ranking(m, i)[..neighborCount];
      forall j: nat ensures j in ranked <==> InTop(m, topK, i, j) { TopIsCut(m, topK, i, j); }
      forall p | 0 <= p < |ranked| ensures |Closer(m, i, ranked[p])| == p { RankingCounts(m, i, p); }
      rankings := rankings + [ranked];
    }
  }

  ghost predicate Cut(m: Matrix, topK: nat, i: nat, ranked: seq<nat>) {
    && Distinct(ranked)
    && (forall j: nat :: j in ranked <==> InTop(m, topK, i, j))
    && (forall p :: 0 <= p < |ranked| ==> |Closer(m, i, ranked[p])| == p)
  }

  lemma RankMapCounts(m: Matrix, topK: nat, i: nat, ranked: seq<nat>, j: nat)
    requires Cut(m, topK, i, ranked)
    ensures j in RankMap(ranked) <==> InTop(m, topK, i, j)
    ensures j in RankMap(ranked) ==> RankMap(ranked)[j] == |Closer(m, i, j)| + 1
  {
    if j in ranked {
      var p :| 0 <= p < |ranked| && ranked[p] == j;
    }
  }

  /** The loops have looked at the pair: an earlier ranking, or the first `p` entries of this one. */
  ghost predicate LookedAt(rankings: seq<seq<nat>>, l: nat, p: nat, a: nat, b: nat) {
    a < l || (a == l < |rankings| && p <= |rankings[l]| && b in rankings[l][..p])
  }

  ghost predicate FoundAs(m: Matrix, gate: Gate, rankings: seq<seq<nat>>, l: nat, p: nat, e: Affinity, a: nat, b: nat) {
    Mutual(m, gate, a, b) && LookedAt(rankings, l, p, a, b) && e == AffinityOf(m, a, b)
  }

  ghost predicate FoundSome(m: Matrix, gate: Gate, rankings: seq<seq<nat>>, l: nat, p: nat, e: Affinity) {
    exists a: nat, b: nat :: FoundAs(m, gate, rankings, l, p, e, a, b)
  }

  ghost predicate FoundSoFar(m: Matrix, gate: Gate, rankings: seq<seq<nat>>, edges: seq<Affinity>, l: nat, p: nat) {
    && Distinct(edges)
    && forall e :: e in edges <==> FoundSome(m, gate, rankings, l, p, e)
  }

  ghost predicate AllCut(m: Matrix, topK: nat, rankings: seq<seq<nat>>) {
    |rankings| == |m.keys| && forall i: nat :: i < |rankings| ==> Cut(m, topK, i, rankings[i])
  }

  /** One more entry of a ranking: the edge is added exactly when the pair is mutual. */
  lemma LookAtOneMore(m: Matrix, gate: Gate, rankings: seq<seq<nat>>, edges: seq<Affinity>, l: nat, p: nat)
    requires Square(m) && AllCut(m, gate.topK, rankings) && l < |rankings| && p < |rankings[l]|
    requires FoundSoFar(m, gate, rankings, edges, l, p)
    ensures rankings[l][p] < |m.keys|
    ensures FoundSoFar(m, gate, rankings,
      if Mutual(m, gate, l, rankings[l][p]) then edges + [AffinityOf(m, l, rankings[l][p])] else edges, l, p + 1)
  {
    var r := rankings[l][p];
    assert Cut(m, gate.topK, l, rankings[l]) && r in rankings[l];
    var now := if Mutual(m, gate, l, r) then edges + [AffinityOf(m, l, r)] else edges;
    assert rankings[l][..p + 1] == rankings[l][..p] + [r];
    forall e ensures e in now <==> FoundSome(m, gate, rankings, l, p + 1, e) {
      if e in edges {
        var a: nat, b: nat :| FoundAs(m, gate, rankings, l, p, e, a, b);
        assert FoundAs(m, gate, rankings, l, p + 1, e, a, b);
      } else if e in now {
        assert FoundAs(m, gate, rankings, l, p + 1, e, l, r);
      }
      if FoundSome(m, gate, rankings, l, p + 1, e) {
        var a: nat, b: nat :| FoundAs(m, gate, rankings, l, p + 1, e, a, b);
        if a == l && b == r {
          assert e in now;
        } else {
          assert FoundAs(m, gate, rankings, l, p, e, a, b);
        }
      }
    }
    forall e | e in edges ensures e != AffinityOf(m, l, r) {
      var a: nat, b: nat :| FoundAs(m, gate, rankings, l, p, e, a, b);
      assert AffinityOf(m, a, b) == AffinityOf(m, l, r) ==> a == l && b == r;
    }
    DistinctMore(edges, AffinityOf(m, l, r));
  }

  lemma NextRanking(m: Matrix, gate: Gate, rankings: seq<seq<nat>>, edges: seq<Affinity>, l: nat)
    requires AllCut(m, gate.topK, rankings) && l < |rankings|
    requires FoundSoFar(m, gate, rankings, edges, l, |rankings[l]|)
    ensures FoundSoFar(m, gate, rankings, edges, l + 1, 0)
  {
    assert rankings[l][..|rankings[l]|] == rankings[l];
    assert Cut(m, gate.topK, l, rankings[l]);
    forall e ensures e in edges <==> FoundSome(m, gate, rankings, l + 1, 0, e) {
      if e in edges {
        var a: nat, b: nat :| FoundAs(m, gate, rankings, l, |rankings[l]|, e, a, b);
        assert FoundAs(m, gate, rankings, l + 1, 0, e, a, b);
      }
      if FoundSome(m, gate, rankings, l + 1, 0, e) {
        var a: nat, b: nat :| FoundAs(m, gate, rankings, l + 1, 0, e, a, b);
        assert FoundAs(m, gate, rankings, l, |rankings[l]|, e, a, b);
      }
    }
  }

  /** What the nested loops leave is every emitted edge once. */
  lemma AllFound(m: Matrix, gate: Gate, rankings: seq<seq<nat>>, edges: seq<Affinity>)
    requires AllCut(m, gate.topK, rankings) && FoundSoFar(m, gate, rankings, edges, |m.keys|, 0)
    ensures forall e :: e in edges <==> Emitted(m, gate, e)
  {
    forall e ensures e in edges <==> Emitted(m, gate, e) {
      if e in edges {
        var a: nat, b: nat :| FoundAs(m, gate, rankings, |m.keys|, 0, e, a, b);
      }
      if Emitted(m, gate, e) {
        var a: nat, b: nat :| Mutual(m, gate, a, b) && e == AffinityOf(m, a, b);
        assert FoundAs(m, gate, rankings, |m.keys|, 0, e, a, b);
      }
    }
  }

  /** One entry of one ranking, looked at as the inner loop does. */
  method Consider(m: Matrix, gate: Gate, rankings: seq<seq<nat>>, l: nat, r: nat) returns (e: seq<Affinity>)
    requires Square(m) && AllCut(m, gate.topK, rankings) && l < |rankings| && r in rankings[l]
    ensures e == if Mutual(m, gate, l, r) then [AffinityOf(m, l, r)] else []
  {
    assert Cut(m, gate.topK, l, rankings[l]) && InTop(m, gate.topK, l, r);
    assert Cut(m, gate.topK, r, rankings[r]);
    var leftRanks, rightRanks := RankMap(rankings[l]), RankMap(rankings[r]);
    RankMapCounts(m, gate.topK, l, rankings[l], r);
    RankMapCounts(m, gate.topK, r, rankings[r], l);
    if r <= l || l !in rightRanks {
      return [];
    }
    var similarity := SimAt(m, l, r);
    var leftLift := similarity - BaselineAt(m, l);
    var rightLift := similarity - BaselineAt(m, r);
    if similarity < gate.threshold || (if leftLift < rightLift then leftLift else rightLift) < gate.minimumLift {
      return [];
    }
    return [Affinity(KeyAt(m, l), KeyAt(m, r), Rounded(similarity), leftRanks[r], rightRanks[l], Rounded(leftLift), Rounded(rightLift))];
  }

  method Edges(m: Matrix, gate: Gate) returns (edges: seq<Affinity>)
    requires Square(m)
    ensures forall e :: e in edges <==> Emitted(m, gate, e)
    ensures forall e :: e in edges <==> exists l: nat, r: nat :: Joins(m, gate, l, r, e)
    ensures Distinct(edges) && EdgesListed(edges)
  {
    var rankings := CutRankings(m, gate.topK);
    var found: seq<Affinity> := [];
    for l := 0 to |m.keys|
      invariant FoundSoFar(m, gate, rankings, found, l, 0)
    {
      for p := 0 to |rankings[l]|
        invariant FoundSoFar(m, gate, rankings, found, l, p)
      {
        LookAtOneMore(m, gate, rankings, found, l, p);
        var e := Consider(m, gate, rankings, l, rankings[l][p]);
        found := found + e;
      }
      NextRanking(m, gate, rankings, found, l);
    }
    AllFound(m, gate, rankings, found);
    edges := SortBy(found, EdgeBefore);
    assert StrictWeak(EdgeBefore);
    SortDistinct(found, EdgeBefore);
    SortKeeps(found, EdgeBefore);
    InOrderIsListed(edges);
    forall e ensures e in edges <==> exists l: nat, r: nat :: Joins(m, gate, l, r, e) {
      EmittedJoins(m, gate, e);
    }
  }
}
