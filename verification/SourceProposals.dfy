/**
 Proposing source neighbourhoods from vectors: the similarity of sources over weighted channels,
 the thresholds and local baselines taken from the similarities, and which settings make every
 tight edge a broad one.
 */
module SourceProposals {
  import opened Wrappers
  import opened Ordering
  import opened Numbers
  import opened MutualEdges
  import Neighborhoods

  // --- settings ------------------------------------------------------------------------------------

  datatype Settings = Settings(
    tightTopK: int, bridgeTopK: int, tightQuantile: real, bridgeQuantile: real, tightSimilarity: real, bridgeSimilarity: real,
    tightLift: real, bridgeLift: real)

  /** The settings the proposal does not refuse. */
  predicate Admitted(s: Settings) {
    && s.tightTopK >= 1 && s.bridgeTopK >= 1 && s.bridgeTopK >= s.tightTopK
    && 0.0 <= s.tightQuantile <= 1.0 && 0.0 <= s.bridgeQuantile <= 1.0 && s.bridgeQuantile <= s.tightQuantile
    && -1.0 <= s.tightSimilarity <= 1.0 && -1.0 <= s.bridgeSimilarity <= 1.0 && s.bridgeSimilarity <= s.tightSimilarity
    && s.tightLift >= 0.0 && s.bridgeLift >= 0.0
  }

  // --- similarities ---------------------------------------------------------------------------------

  /** One vector channel: its share of the weight and a vector for every source. */
  datatype Channel = Channel(weight: real, vectors: seq<seq<real>>)

  function Dot(u: seq<real>, v: seq<real>): real {
    if u == [] || v == [] then 0.0 else u[0] * v[0] + Dot(u[1..], v[1..])
  }

  function TotalWeight(channels: seq<Channel>): real {
    if channels == [] then 0.0 else channels[0].weight + TotalWeight(channels[1..])
  }

  /** Weights that are shares of one, and vectors of length one. */
  ghost predicate GoodChannels(channels: seq<Channel>, n: nat) {
    && (forall k :: 0 <= k < |channels| ==> GoodChannel(channels[k], n))
    && TotalWeight(channels) == 1.0
  }

  ghost predicate GoodChannel(c: Channel, n: nat) {
    c.weight >= 0.0 && |c.vectors| == n && forall i :: 0 <= i < n ==> Dot(c.vectors[i], c.vectors[i]) == 1.0
  }

  function Blend(channels: seq<Channel>, i: nat, j: nat): real {
    if channels == [] then 0.0
    else Part(channels[0], i, j) + Blend(channels[1..], i, j)
  }

  /** What one channel says of two sources. */
  function Part(c: Channel, i: nat, j: nat): real {
    if i < |c.vectors| && j < |c.vectors| then c.weight * Dot(c.vectors[i], c.vectors[j]) else 0.0
  }

  function Clip(x: real): real {
    if x < -1.0 then -1.0 else if x > 1.0 then 1.0 else x
  }

  /** The similarities are those of the vectors, clipped; nothing reads the diagonal. */
  ghost predicate SimilaritiesOf(channels: seq<Channel>, m: Matrix) {
    forall i: nat, j: nat :: i < |m.keys| && j < |m.keys| && i != j ==> SimAt(m, i, j) == Clip(Blend(channels, i, j))
  }

  // --- baselines and thresholds -----------------------------------------------------------------------

  /** The similarities of source `i` to the first `n` sources other than itself. */
  function Others(row: seq<real>, i: nat, n: nat): seq<real>
    requires n <= |row|
  {
    if n == 0 then [] else Others(row, i, n - 1) + (if n - 1 == i then [] else [row[n - 1]])
  }

  lemma {:induction false} OthersFacts(row: seq<real>, i: nat, n: nat)
    requires n <= |row|
    ensures |Others(row, i, n)| == if i < n then n - 1 else n
    ensures forall v :: v in Others(row, i, n) ==> exists j :: 0 <= j < n && j != i && row[j] == v
  {
    if n > 0 {
      OthersFacts(row, i, n - 1);
    }
  }

  /** Every source's baseline is the median of its similarities to the others. */
  ghost predicate MedianBaselines(m: Matrix)
    requires Square(m)
  {
    forall i :: 0 <= i < |m.keys| ==>
      Others(m.sims[i], i, |m.keys|) != [] && m.baselines[i] == Median(Others(m.sims[i], i, |m.keys|))
  }

  /** The similarities of all pairs, each pair once. */
  function PairValues(sims: seq<seq<real>>, n: nat): seq<real>
    requires n <= |sims|
  {
    if n == 0 then [] else PairValues(sims, n - 1) + Column(sims, n - 1, n - 1)
  }

  function Column(sims: seq<seq<real>>, r: nat, n: nat): (c: seq<real>)
    requires n <= |sims|
    ensures |c| == n && forall l :: 0 <= l < n ==> c[l] == if r < |sims[l]| then sims[l][r] else 0.0
  {
    seq(n, l requires 0 <= l < n => if r < |sims[l]| then sims[l][r] else 0.0)
  }

  lemma ColumnHas(m: Matrix, r: nat, n: nat)
    requires Square(m) && r < |m.keys| && n <= r
    ensures forall v :: v in Column(m.sims, r, n) ==> exists l: nat :: l < n && SimAt(m, l, r) == v
  {
    forall v | v in Column(m.sims, r, n) ensures exists l: nat :: l < n && SimAt(m, l, r) == v {
      var l: nat :| l < n && Column(m.sims, r, n)[l] == v;
      assert SimAt(m, l, r) == v;
    }
  }

  lemma {:induction false} PairValuesHave(m: Matrix, n: nat)
    requires Square(m) && n <= |m.keys|
    ensures n >= 2 ==> PairValues(m.sims, n) != []
    ensures forall v :: v in PairValues(m.sims, n) ==> exists l: nat, r: nat :: l < r < n && SimAt(m, l, r) == v
  {
    if n > 0 {
      PairValuesHave(m, n - 1);
      ColumnHas(m, n - 1, n - 1);
      forall v | v in PairValues(m.sims, n) ensures exists l: nat, r: nat :: l < r < n && SimAt(m, l, r) == v {
        if v in PairValues(m.sims, n - 1) {
          var l: nat, r: nat :| l < r < n - 1 && SimAt(m, l, r) == v;
        } else {
          var l: nat :| l < n - 1 && SimAt(m, l, n - 1) == v;
        }
      }
    }
  }

  function Max(a: real, b: real): real {
    if a < b then b else a
  }

  /** The larger of a floor and a quantile of the similarities. */
  function Threshold(m: Matrix, floor: real, quantile: real): real {
    var values := PairValues(m.sims, |m.sims|);
    if values == [] || !(0.0 <= quantile <= 1.0) then floor else Max(floor, Quantile(values, quantile))
  }

  function TightGate(m: Matrix, s: Settings): Gate {
    Gate(if s.tightTopK >= 0 then s.tightTopK else 0, Threshold(m, s.tightSimilarity, s.tightQuantile), s.tightLift)
  }

  function BridgeGate(m: Matrix, s: Settings): Gate {
    Gate(if s.bridgeTopK >= 0 then s.bridgeTopK else 0, Threshold(m, s.bridgeSimilarity, s.bridgeQuantile), s.bridgeLift)
  }

  /** The matrices that reach the edges: two sources or more in key order, similarities of vectors, median baselines. */
  ghost predicate Computed(m: Matrix) {
    && Square(m) && Ascending(m.keys) && |m.keys| >= 2 && MedianBaselines(m)
    && exists channels :: GoodChannels(channels, |m.keys|) && SimilaritiesOf(channels, m)
  }

  // --- what these numbers are, told from the matrix alone -------------------------------------------------

  /** Where the similarity of a pair stands in the list of all pairs. */
  ghost function PairIndex(l: nat, r: nat): nat {
    r * (r - 1) / 2 + l
  }

  /** Every pair once: one value for each, at a place of its own. */
  ghost predicate ListsPairs(m: Matrix, n: nat, values: seq<real>) {
    && 2 * |values| == n * (n - 1)
    && forall l: nat, r: nat :: l < r < n ==> PairIndex(l, r) < |values| && values[PairIndex(l, r)] == SimAt(m, l, r)
  }

  lemma {:induction false} PairValuesList(m: Matrix, n: nat)
    requires Square(m) && n <= |m.keys|
    ensures ListsPairs(m, n, PairValues(m.sims, n))
  {
    if n > 0 {
      PairValuesList(m, n - 1);
      var before, column := PairValues(m.sims, n - 1), Column(m.sims, n - 1, n - 1);
      PairsBefore(n - 1);
      assert |before| == (n - 1) * (n - 2) / 2;
      forall l: nat, r: nat | l < r < n
        ensures PairIndex(l, r) < |before + column| && (before + column)[PairIndex(l, r)] == SimAt(m, l, r)
      {
        if r == n - 1 {
          assert PairIndex(l, r) == |before| + l;
        }
      }
    }
  }

  lemma PairsBefore(n: nat)
    ensures n * (n - 1) % 2 == 0 && n * (n - 1) / 2 + n == (n + 1) * n / 2
  {
    HalfProduct(n);
  }

  lemma {:induction false} HalfProduct(n: nat)
    ensures n * (n - 1) % 2 == 0
  {
    if n > 0 {
      HalfProduct(n - 1);
      assert n * (n - 1) == (n - 1) * (n - 2) + 2 * (n - 1);
    }
  }

  /** The larger of the floor and the quantile of all pair similarities. */
  ghost predicate IsThreshold(m: Matrix, floor: real, quantile: real, t: real) {
    exists values, v :: ListsPairs(m, |m.keys|, values) && IsQuantile(values, quantile, v) && t == if v > floor then v else floor
  }

  ghost predicate IsGate(m: Matrix, topK: int, floor: real, quantile: real, lift: real, gate: Gate) {
    gate.topK == topK && gate.minimumLift == lift && IsThreshold(m, floor, quantile, gate.threshold)
  }

  lemma ThresholdIs(m: Matrix, floor: real, quantile: real)
    requires Square(m) && |m.keys| >= 2 && 0.0 <= quantile <= 1.0
    ensures IsThreshold(m, floor, quantile, Threshold(m, floor, quantile))
  {
    var values := PairValues(m.sims, |m.sims|);
    PairValuesList(m, |m.keys|);
    PairValuesHave(m, |m.keys|);
    QuantileIsBetween(values, quantile);
  }

  /** A row without its diagonal value. */
  ghost predicate WithoutDiagonal(row: seq<real>, i: nat, values: seq<real>) {
    && i < |row| && |values| == |row| - 1
    && (forall j :: 0 <= j < i ==> values[j] == row[j]) && (forall j :: i <= j < |values| ==> values[j] == row[j + 1])
  }

  lemma {:induction false} OthersAre(row: seq<real>, i: nat, n: nat)
    requires n <= |row|
    ensures |Others(row, i, n)| == if i < n then n - 1 else n
    ensures forall j :: 0 <= j < i && j < n ==> Others(row, i, n)[j] == row[j]
    ensures forall j :: i <= j < |Others(row, i, n)| ==> Others(row, i, n)[j] == row[j + 1]
  {
    if n > 0 {
      OthersAre(row, i, n - 1);
      var before := Others(row, i, n - 1);
      assert Others(row, i, n) == before + if n - 1 == i then [] else [row[n - 1]];
    }
  }

  /** Every baseline is the median of the source's similarities to the others. */
  ghost predicate RowMedians(m: Matrix) {
    |m.baselines| == |m.keys| == |m.sims| && forall i: nat :: i < |m.keys| ==> IsRowMedian(m.sims[i], i, m.baselines[i])
  }

  ghost predicate IsRowMedian(row: seq<real>, i: nat, baseline: real) {
    exists values :: WithoutDiagonal(row, i, values) && IsMedian(values, baseline)
  }

  lemma BaselinesAreRowMedians(m: Matrix)
    requires Square(m) && MedianBaselines(m)
    ensures RowMedians(m)
  {
    forall i: nat | i < |m.keys| ensures IsRowMedian(m.sims[i], i, m.baselines[i]) {
      OthersAre(m.sims[i], i, |m.keys|);
      MedianIsMiddle(Others(m.sims[i], i, |m.keys|));
      assert WithoutDiagonal(m.sims[i], i, Others(m.sims[i], i, |m.keys|));
    }
  }

  // --- channels ---------------------------------------------------------------------------------------------

  /** A product of vectors adds up over their parts. */
  lemma {:induction false} DotAdds(u: seq<real>, v: seq<real>, x: seq<real>, y: seq<real>)
    requires |u| == |v|
    ensures Dot(u + x, v + y) == Dot(u, v) + Dot(x, y)
    decreases |u|
  {
    if u == [] {
      assert u + x == x && v + y == y;
    } else {
      assert (u + x)[1..] == u[1..] + x && (v + y)[1..] == v[1..] + y;
      DotAdds(u[1..], v[1..], x, y);
    }
  }

  lemma SquareBound(a: real, b: real)
    ensures a * a >= 0.0 && 2.0 * (a * b) <= a * a + b * b && -2.0 * (a * b) <= a * a + b * b
  {
    assert (a - b) * (a - b) == a * a - 2.0 * (a * b) + b * b;
    assert (a + b) * (a + b) == a * a + 2.0 * (a * b) + b * b;
    Squared(a);
    Squared(a - b);
    Squared(a + b);
  }

  lemma Squared(x: real)
    ensures x * x >= 0.0
  {
    if x >= 0.0 {
      Scaled(0.0, x, x);
    } else {
      Scaled(0.0, -x, -x);
      assert (-x) * (-x) == x * x;
    }
  }

  lemma {:induction false} DotSelf(u: seq<real>)
    ensures Dot(u, u) >= 0.0
  {
    if u != [] {
      DotSelf(u[1..]);
      SquareBound(u[0], u[0]);
    }
  }

  lemma {:induction false} DotBound(u: seq<real>, v: seq<real>)
    ensures 2.0 * Dot(u, v) <= Dot(u, u) + Dot(v, v) && -2.0 * Dot(u, v) <= Dot(u, u) + Dot(v, v)
    decreases |u|
  {
    if u != [] && v != [] {
      DotBound(u[1..], v[1..]);
      SquareBound(u[0], v[0]);
    } else {
      DotSelf(u);
      DotSelf(v);
    }
  }

  lemma Weighed(w: real, d: real)
    requires w >= 0.0 && -1.0 <= d <= 1.0
    ensures -w <= w * d <= w
  {
    Scaled(-1.0, d, w);
    Scaled(d, 1.0, w);
  }

  /** Blended similarities of unit vectors never leave the interval, so clipping them changes nothing. */
  lemma ClippingIsIdle(channels: seq<Channel>, n: nat, i: nat, j: nat)
    requires GoodChannels(channels, n) && i < n && j < n
    ensures -1.0 <= Blend(channels, i, j) <= 1.0 && Clip(Blend(channels, i, j)) == Blend(channels, i, j)
  {
    BlendBound(channels, n, i, j);
  }

  lemma PartBound(c: Channel, n: nat, i: nat, j: nat)
    requires GoodChannel(c, n) && i < n && j < n
    ensures -c.weight <= Part(c, i, j) <= c.weight
  {
    DotBound(c.vectors[i], c.vectors[j]);
    Weighed(c.weight, Dot(c.vectors[i], c.vectors[j]));
  }

  lemma {:induction false} BlendBound(channels: seq<Channel>, n: nat, i: nat, j: nat)
    requires i < n && j < n && forall k :: 0 <= k < |channels| ==> GoodChannel(channels[k], n)
    ensures -TotalWeight(channels) <= Blend(channels, i, j) <= TotalWeight(channels)
    decreases |channels|
  {
    if channels != [] {
      assert GoodChannel(channels[0], n);
      BlendBound(channels[1..], n, i, j);
      PartBound(channels[0], n, i, j);
    }
  }

  lemma BlendOfOne(c: Channel, i: nat, j: nat)
    requires i < |c.vectors| && j < |c.vectors|
    ensures Blend([], i, j) == 0.0 && Blend([c], i, j) == c.weight * Dot(c.vectors[i], c.vectors[j])
  {
    assert [c][1..] == [];
  }

  /** A blend adds up what the single channels say: the product of their vectors, weighted. */
  lemma {:induction false} BlendAdds(a: seq<Channel>, b: seq<Channel>, i: nat, j: nat)
    ensures Blend(a + b, i, j) == Blend(a, i, j) + Blend(b, i, j)
    decreases |a|
  {
    if a == [] {
      assert a + b == b;
    } else {
      assert (a + b)[1..] == a[1..] + b;
      BlendAdds(a[1..], b, i, j);
    }
  }

  // --- when tight edges are broad edges -------------------------------------------------------------------

  ghost predicate TightIsBroad(m: Matrix, s: Settings) {
    forall e :: Emitted(m, TightGate(m, s), e) ==> Emitted(m, BridgeGate(m, s), e)
  }

  lemma ThresholdFalls(m: Matrix, s: Settings)
    requires Computed(m) && Admitted(s)
    ensures BridgeGate(m, s).threshold <= TightGate(m, s).threshold
  {
    PairValuesHave(m, |m.keys|);
    QuantileRises(PairValues(m.sims, |m.sims|), s.bridgeQuantile, s.tightQuantile);
  }

  lemma SimilarityBounds(m: Matrix, i: nat, j: nat)
    requires Computed(m) && i < |m.keys| && j < |m.keys| && i != j
    ensures -1.0 <= SimAt(m, i, j) <= 1.0
  {
  }

  lemma BaselineBounds(m: Matrix, i: nat)
    requires Computed(m) && i < |m.keys|
    ensures -1.0 <= BaselineAt(m, i) <= 1.0
  {
    var others := Others(m.sims[i], i, |m.keys|);
    OthersFacts(m.sims[i], i, |m.keys|);
    forall v | v in others ensures -1.0 <= v <= 1.0 {
      var j :| 0 <= j < |m.keys| && j != i && m.sims[i][j] == v;
      SimilarityBounds(m, i, j);
    }
    MedianBetween(others, -1.0, 1.0);
  }

  /** No edge lifts further above its baselines than two. */
  lemma LiftAtMostTwo(m: Matrix, gate: Gate, e: Affinity)
    requires Computed(m) && Emitted(m, gate, e)
    ensures gate.minimumLift <= 2.0
  {
    var l: nat, r: nat :| Mutual(m, gate, l, r) && e == AffinityOf(m, l, r);
    SimilarityBounds(m, l, r);
    BaselineBounds(m, l);
  }

  lemma LooserLiftKeepsEdges(m: Matrix, s: Settings)
    requires Computed(m) && Admitted(s) && (s.bridgeLift <= s.tightLift || s.tightLift > 2.0)
    ensures TightIsBroad(m, s)
  {
    ThresholdFalls(m, s);
    forall e | Emitted(m, TightGate(m, s), e) ensures Emitted(m, BridgeGate(m, s), e) {
      LiftAtMostTwo(m, TightGate(m, s), e);
      LooserGateAddsEdges(m, TightGate(m, s), BridgeGate(m, s), e);
    }
  }

  // --- a matrix whose one pair lifts exactly as far as wanted ------------------------------------------------

  /** Two sources alike, two others alike, and a similarity of `x` across. */
  function TwoPairs(x: real): Matrix {
    Matrix([1, 2, 3, 4], [[0.0, 1.0, x, x], [1.0, 0.0, x, x], [x, x, 0.0, 1.0], [x, x, 1.0, 0.0]], [x, x, x, x])
  }

  /** Its vectors: a channel in which all four agree and one in which the pairs are opposed. */
  function TwoPairChannels(x: real): seq<Channel> {
    [Channel((1.0 + x) / 2.0, [[1.0], [1.0], [1.0], [1.0]]), Channel((1.0 - x) / 2.0, [[1.0], [1.0], [-1.0], [-1.0]])]
  }

  function Sign(i: nat): real {
    if i < 2 then 1.0 else -1.0
  }

  lemma DotOfOne(a: real, b: real)
    ensures Dot([a], [b]) == a * b
  {
    assert [a][1..] == [] && [b][1..] == [];
  }

  lemma TwoPairsBlend(x: real, i: nat, j: nat)
    requires i < 4 && j < 4
    ensures Blend(TwoPairChannels(x), i, j) == if (i < 2) == (j < 2) then 1.0 else x
  {
    var cs := TwoPairChannels(x);
    var agree, opposed := cs[0], cs[1];
    assert agree.vectors[i] == [1.0] && agree.vectors[j] == [1.0];
    assert opposed.vectors[i] == [Sign(i)] && opposed.vectors[j] == [Sign(j)];
    DotOfOne(1.0, 1.0);
    DotOfOne(Sign(i), Sign(j));
    assert cs[1..] == [opposed] && [opposed][1..] == [];
    assert Blend([], i, j) == 0.0;
    assert Blend([opposed], i, j) == opposed.weight * (Sign(i) * Sign(j));
    assert Blend(cs, i, j) == agree.weight * 1.0 + Blend([opposed], i, j);
  }

  lemma TwoPairsAreVectors(x: real)
    requires -1.0 <= x <= 1.0
    ensures GoodChannels(TwoPairChannels(x), 4) && SimilaritiesOf(TwoPairChannels(x), TwoPairs(x))
  {
    var cs, m := TwoPairChannels(x), TwoPairs(x);
    assert cs[1..] == [cs[1]] && [cs[1]][1..] == [];
    assert TotalWeight([]) == 0.0 && TotalWeight([cs[1]]) == cs[1].weight;
    assert TotalWeight(cs) == cs[0].weight + cs[1].weight == 1.0;
    DotOfOne(1.0, 1.0);
    DotOfOne(-1.0, -1.0);
    forall k | 0 <= k < 2 ensures GoodChannel(cs[k], 4) {
      assert cs[k] == cs[0] || cs[k] == cs[1];
    }
    forall i: nat, j: nat | i < 4 && j < 4 && i != j ensures SimAt(m, i, j) == Clip(Blend(cs, i, j)) {
      TwoPairsBlend(x, i, j);
    }
  }

  lemma MedianOfTwoPairs(x: real)
    requires x <= 1.0
    ensures Median([1.0, x, x]) == x && Median([x, x, 1.0]) == x
  {
    var none: seq<real> := [];
    assert Sorted(none) == none;
    assert [x][1..] == none && [1.0][1..] == none;
    assert SortBy([x], Smaller) == Insert(x, none, Smaller) == [x];
    assert SortBy([1.0], Smaller) == Insert(1.0, none, Smaller) == [1.0];
    assert [x, x][1..] == [x] && [x, 1.0][1..] == [1.0];
    assert SortBy([x, x], Smaller) == Insert(x, [x], Smaller) == [x, x];
    assert SortBy([x, 1.0], Smaller) == Insert(x, [1.0], Smaller) == [x, 1.0];
    assert [1.0, x, x][1..] == [x, x] && [x, x, 1.0][1..] == [x, 1.0];
    assert Sorted([1.0, x, x]) == Insert(1.0, [x, x], Smaller);
    assert Insert(1.0, [x], Smaller) == if x < 1.0 then [x] + Insert(1.0, none, Smaller) else [1.0, x];
    assert Insert(1.0, none, Smaller) == [1.0];
    assert Sorted([x, x, 1.0]) == Insert(x, [x, 1.0], Smaller) == [x, x, 1.0];
  }

  lemma OthersOfFour(row: seq<real>, i: nat)
    requires |row| == 4 && i < 4
    ensures Others(row, i, 4) == match i case 0 => [row[1], row[2], row[3]] case 1 => [row[0], row[2], row[3]]
                                         case 2 => [row[0], row[1], row[3]] case _ => [row[0], row[1], row[2]]
  {
    assert Others(row, i, 0) == [];
    assert Others(row, i, 1) == if i == 0 then [] else [row[0]];
    assert Others(row, i, 2) == Others(row, i, 1) + if i == 1 then [] else [row[1]];
    assert Others(row, i, 3) == Others(row, i, 2) + if i == 2 then [] else [row[2]];
  }

  lemma TwoPairsAreComputed(x: real)
    requires -1.0 <= x <= 1.0
    ensures Computed(TwoPairs(x))
  {
    var m := TwoPairs(x);
    TwoPairsAreVectors(x);
    MedianOfTwoPairs(x);
    forall i: nat | i < 4 ensures Others(m.sims[i], i, 4) != [] && m.baselines[i] == Median(Others(m.sims[i], i, 4)) {
      OthersOfFour(m.sims[i], i);
    }
  }

  lemma TwoPairsClosest(x: real)
    requires x <= 1.0
    ensures Closer(TwoPairs(x), 0, 1) == {} && Closer(TwoPairs(x), 1, 0) == {}
  {
    var m := TwoPairs(x);
    forall a: nat | a < 4 ensures !Nearer(m, 0, a, 1) || a == 0 {
      assert a == 0 || a == 1 || a == 2 || a == 3;
    }
    forall a: nat | a < 4 ensures !Nearer(m, 1, a, 0) || a == 1 {
      assert a == 0 || a == 1 || a == 2 || a == 3;
    }
  }

  lemma ThresholdAtMostOne(m: Matrix, floor: real, quantile: real)
    requires Computed(m) && floor <= 1.0 && 0.0 <= quantile <= 1.0
    ensures Threshold(m, floor, quantile) <= 1.0
  {
    var values := PairValues(m.sims, |m.sims|);
    PairValuesHave(m, |m.keys|);
    forall v | v in values ensures v <= 1.0 {
      var l: nat, r: nat :| l < r < |m.keys| && SimAt(m, l, r) == v;
      SimilarityBounds(m, l, r);
    }
    QuantileAtMost(values, quantile, 1.0);
  }

  /**
   A bridge lift above the tight one loses a tight edge of some matrix the code can compute, unless
   the tight lift is out of every edge's reach: the edge of two equal sources that lifts just as far
   as the tight gate asks.
   */
  lemma StricterBridgeLiftLosesAnEdge(s: Settings) returns (m: Matrix, e: Affinity)
    requires Admitted(s) && s.tightLift < s.bridgeLift && s.tightLift <= 2.0
    ensures Computed(m) && Emitted(m, TightGate(m, s), e) && !Emitted(m, BridgeGate(m, s), e)
  {
    var x := 1.0 - s.tightLift;
    m := TwoPairs(x);
    TwoPairsAreComputed(x);
    TwoPairsClosest(x);
    ThresholdAtMostOne(m, s.tightSimilarity, s.tightQuantile);
    assert Mutual(m, TightGate(m, s), 0, 1);
    e := AffinityOf(m, 0, 1);
    assert !Mutual(m, BridgeGate(m, s), 0, 1);
    forall l: nat, r: nat | Mutual(m, BridgeGate(m, s), l, r) ensures e != AffinityOf(m, l, r) {
      assert m.keys[l] != 1 || m.keys[r] != 2;
    }
  }

  /** Tight edges are broad edges of every matrix exactly when the bridge lift is no larger, or no edge passes the tight one. */
  lemma TightEdgesAreBroadExactlyWhen(s: Settings)
    requires Admitted(s)
    ensures (forall m :: Computed(m) ==> TightIsBroad(m, s)) <==> s.bridgeLift <= s.tightLift || s.tightLift > 2.0
  {
    if s.bridgeLift <= s.tightLift || s.tightLift > 2.0 {
      forall m | Computed(m) ensures TightIsBroad(m, s) {
        LooserLiftKeepsEdges(m, s);
      }
    } else {
      var m, e := StricterBridgeLiftLosesAnEdge(s);
      assert Computed(m) && !TightIsBroad(m, s);
    }
  }

  // --- the proposal -----------------------------------------------------------------------------------------

  method Baselines(sims: seq<seq<real>>, n: nat) returns (baselines: seq<real>)
    requires n >= 2 && |sims| == n && forall i :: 0 <= i < n ==> |sims[i]| == n
    ensures |baselines| == n
    ensures forall i :: 0 <= i < n ==> Others(sims[i], i, n) != [] && baselines[i] == Median(Others(sims[i], i, n))
  {
    baselines := [];
    for i := 0 to n
      invariant |baselines| == i
      invariant forall k :: 0 <= k < i ==> Others(sims[k], k, n) != [] && baselines[k] == Median(Others(sims[k], k, n))
    {
      OthersFacts(sims[i], i, n);
      baselines := baselines + [Median(Others(sims[i], i, n))];
    }
  }

  /** A single source is a neighbourhood of its own. */
  function Alone(key: Id, hash: seq<Id> -> Id): Neighborhoods.Proposal {
    Neighborhoods.Proposal([key], [], [], [Neighborhoods.Neighborhood(hash([key]), [key])], [])
  }

  lemma AloneIsValid(key: Id, hash: seq<Id> -> Id, available: set<Id>)
    requires key in available
    ensures Neighborhoods.ValidProposal(available, Alone(key, hash))
  {
    var p := Alone(key, hash);
    assert p.neighborhoods[..0] == [] && Neighborhoods.AllMembers(p.neighborhoods) == [key];
  }

  /**
   The proposal for the given similarities: refused exactly on settings that are not admitted,
   otherwise accepted by the validator, with thresholds and baselines taken from the similarities.
   */
  method ProposeFrom(keys: seq<Id>, sims: seq<seq<real>>, s: Settings, available: set<Id>, hash: seq<Id> -> Id)
    returns (r: Option<Neighborhoods.Proposal>, ghost m: Matrix, ghost best: map<(Id, Id), Affinity>)
    requires keys != [] && Ascending(keys) && Elements(keys) <= available && Neighborhoods.Injective(hash)
    requires |sims| == |keys| && forall i :: 0 <= i < |sims| ==> |sims[i]| == |keys|
    ensures r.Some? <==>
      && 1 <= s.tightTopK <= s.bridgeTopK && 0.0 <= s.bridgeQuantile <= s.tightQuantile <= 1.0
      && -1.0 <= s.bridgeSimilarity <= s.tightSimilarity <= 1.0 && 0.0 <= s.tightLift && 0.0 <= s.bridgeLift
    ensures r.Some? ==> Neighborhoods.ValidProposal(available, r.value)
    ensures r.Some? && |keys| == 1 ==> r.value == Alone(keys[0], hash)
    ensures r.Some? && |keys| > 1 ==>
      && Square(m) && m.keys == keys && m.sims == sims && MedianBaselines(m)
      && Neighborhoods.ProposalOf(m, TightGate(m, s), BridgeGate(m, s), r.value, best)
    ensures r.Some? && |keys| > 1 ==>
      && RowMedians(m) && IsGate(m, s.tightTopK, s.tightSimilarity, s.tightQuantile, s.tightLift, TightGate(m, s))
      && IsGate(m, s.bridgeTopK, s.bridgeSimilarity, s.bridgeQuantile, s.bridgeLift, BridgeGate(m, s))
  {
    m, best := Matrix(keys, sims, []), map[];
    if !Admitted(s) {
      return None, m, best;
    }
    if |keys| == 1 {
      assert keys[0] in Elements(keys);
      AloneIsValid(keys[0], hash, available);
      assert keys == [keys[0]];
      return Some(Alone(keys[0], hash)), m, best;
    }
    var baselines := Baselines(sims, |keys|);
    var matrix := Matrix(keys, sims, baselines);
    m := matrix;
    var p;
    p, best := Neighborhoods.Propose(matrix, TightGate(matrix, s), BridgeGate(matrix, s), available, hash);
    BaselinesAreRowMedians(matrix);
    ThresholdIs(matrix, s.tightSimilarity, s.tightQuantile);
    ThresholdIs(matrix, s.bridgeSimilarity, s.bridgeQuantile);
    r := Some(p);
  }
}
