/** Rounding, medians and quantiles as the numeric code computes them, over exact reals. */
module Numbers {
  import opened Ordering

  /** `round`: to the nearest integer, halves to the even one. */
  function Round(x: real): int {
    var floor := x.Floor;
    var rest := x - floor as real;
    if rest < 0.5 then floor
    else if rest > 0.5 then floor + 1
    else if floor % 2 == 0 then floor else floor + 1
  }

  /** `round(x, 8)` */
  function Rounded(x: real): real {
    Round(x * 100000000.0) as real / 100000000.0
  }

  /** `round(x, 6)` */
  function RoundedSix(x: real): real {
    Round(x * 1000000.0) as real / 1000000.0
  }

  predicate Smaller(a: real, b: real) {
    a < b
  }

  function Sorted(values: seq<real>): (r: seq<real>)
    ensures |r| == |values|
  {
    SortBy(values, Smaller)
  }

  lemma SortedFacts(values: seq<real>)
    ensures forall v :: v in Sorted(values) <==> v in values
    ensures forall i, j :: 0 <= i <= j < |Sorted(values)| ==> Sorted(values)[i] <= Sorted(values)[j]
  {
    SortKeeps(values, Smaller);
    assert StrictWeak(Smaller);
    SortInOrder(values, Smaller);
  }

  function Median(values: seq<real>): real
    requires values != []
  {
    var ordered := Sorted(values);
    var mid := |ordered| / 2;
    if |ordered| % 2 == 1 then ordered[mid] else (ordered[mid - 1] + ordered[mid]) / 2.0
  }

  lemma MedianBetween(values: seq<real>, low: real, high: real)
    requires values != [] && forall v :: v in values ==> low <= v <= high
    ensures low <= Median(values) <= high
  {
    var ordered := Sorted(values);
    SortedFacts(values);
    var mid := |ordered| / 2;
    assert ordered[mid] in ordered;
    if |ordered| % 2 == 0 {
      assert ordered[mid - 1] in ordered;
    }
  }

  lemma MedianAbove(values: seq<real>, bound: real)
    requires values != [] && forall v :: v in values ==> v > bound
    ensures Median(values) > bound
  {
    var ordered := Sorted(values);
    SortedFacts(values);
    assert ordered[|ordered| / 2] in ordered;
    if |ordered| % 2 == 0 {
      assert ordered[|ordered| / 2 - 1] in ordered;
    }
  }

  // --- quantiles ------------------------------------------------------------------------------------

  lemma Scaled(a: real, b: real, c: real)
    requires a <= b && c >= 0.0
    ensures a * c <= b * c
  {
    assert (b - a) * c >= 0.0;
  }

  /** The value a share `t` of the way from `a` to `b`. */
  function Between(a: real, b: real, t: real): real {
    a + t * (b - a)
  }

  lemma BetweenEnds(a: real, b: real, t: real)
    requires a <= b && 0.0 <= t <= 1.0
    ensures a <= Between(a, b, t) <= b
  {
    Scaled(0.0, t, b - a);
    Scaled(t, 1.0, b - a);
  }

  lemma BetweenRises(a: real, b: real, s: real, t: real)
    requires a <= b && s <= t
    ensures Between(a, b, s) <= Between(a, b, t)
  {
    Scaled(s, t, b - a);
  }

  /** Linear interpolation in a sorted list at a position between its ends. */
  function At(ordered: seq<real>, position: real): real
    requires ordered != [] && 0.0 <= position <= (|ordered| - 1) as real
  {
    var i := position.Floor;
    if i >= |ordered| - 1 then ordered[|ordered| - 1]
    else Between(ordered[i], ordered[i + 1], position - i as real)
  }

  lemma PositionFits(n: nat, q: real)
    requires n > 0 && 0.0 <= q <= 1.0
    ensures 0.0 <= q * (n - 1) as real <= (n - 1) as real
  {
    Scaled(0.0, q, (n - 1) as real);
    Scaled(q, 1.0, (n - 1) as real);
  }

  /** `quantile(values, q)`, by linear interpolation between the sorted values. */
  function Quantile(values: seq<real>, q: real): real
    requires values != [] && 0.0 <= q <= 1.0
  {
    PositionFits(|values|, q);
    At(Sorted(values), q * (|values| - 1) as real)
  }

  ghost predicate Rising(xs: seq<real>) {
    forall i, j :: 0 <= i <= j < |xs| ==> xs[i] <= xs[j]
  }

  lemma BetweenNeighbours(ordered: seq<real>, position: real)
    requires Rising(ordered) && ordered != [] && 0.0 <= position <= (|ordered| - 1) as real
    ensures var i := position.Floor;
      0 <= i < |ordered| && ordered[i] <= At(ordered, position) <= ordered[if i + 1 < |ordered| then i + 1 else i]
  {
    var i := position.Floor;
    if i < |ordered| - 1 {
      BetweenEnds(ordered[i], ordered[i + 1], position - i as real);
    }
  }

  lemma AtRises(ordered: seq<real>, p: real, q: real)
    requires Rising(ordered) && ordered != [] && 0.0 <= p <= q <= (|ordered| - 1) as real
    ensures At(ordered, p) <= At(ordered, q)
  {
    var i, j := p.Floor, q.Floor;
    BetweenNeighbours(ordered, p);
    BetweenNeighbours(ordered, q);
    if i == j && i < |ordered| - 1 {
      BetweenRises(ordered[i], ordered[i + 1], p - i as real, q - i as real);
    }
  }

  lemma QuantileRises(values: seq<real>, p: real, q: real)
    requires values != [] && 0.0 <= p <= q <= 1.0
    ensures Quantile(values, p) <= Quantile(values, q)
  {
    SortedFacts(values);
    PositionFits(|values|, p);
    PositionFits(|values|, q);
    Scaled(p, q, (|values| - 1) as real);
    AtRises(Sorted(values), p * (|values| - 1) as real, q * (|values| - 1) as real);
  }

  lemma AtAtMost(ordered: seq<real>, position: real, high: real)
    requires Rising(ordered) && ordered != [] && 0.0 <= position <= (|ordered| - 1) as real
    requires forall v :: v in ordered ==> v <= high
    ensures At(ordered, position) <= high
  {
    BetweenNeighbours(ordered, position);
    var i := position.Floor;
    assert ordered[if i + 1 < |ordered| then i + 1 else i] in ordered;
  }

  lemma QuantileAtMost(values: seq<real>, q: real, high: real)
    requires values != [] && 0.0 <= q <= 1.0 && forall v :: v in values ==> v <= high
    ensures Quantile(values, q) <= high
  {
    SortedFacts(values);
    PositionFits(|values|, q);
    var position := q * (|values| - 1) as real;
    AtAtMost(Sorted(values), position, high);
  }

  // --- what these numbers are, told by counting and distance -----------------------------------------

  /** The nearest integer, of two equally near ones the even one. */
  lemma RoundIsNearest(x: real)
    ensures x - 0.5 <= Round(x) as real <= x + 0.5
    ensures Round(x) as real == x - 0.5 || Round(x) as real == x + 0.5 ==> Round(x) % 2 == 0
  {
  }

  /** Rounding to six or eight places moves a value by half a unit of the last place at most, to a whole number of such units. */
  lemma RoundedIsNear(x: real)
    ensures x - 0.000000005 <= Rounded(x) <= x + 0.000000005 && Rounded(x) * 100000000.0 == Round(x * 100000000.0) as real
    ensures x - 0.0000005 <= RoundedSix(x) <= x + 0.0000005 && RoundedSix(x) * 1000000.0 == Round(x * 1000000.0) as real
  {
    RoundIsNearest(x * 100000000.0);
    RoundIsNearest(x * 1000000.0);
  }

  ghost function Under(xs: seq<real>, v: real): set<nat> {
    set i: nat | i < |xs| && xs[i] < v
  }

  ghost function Over(xs: seq<real>, v: real): set<nat> {
    set i: nat | i < |xs| && xs[i] > v
  }

  /** A value with at most `k` smaller ones and at most `n - 1 - k` larger ones. */
  ghost predicate KthSmallest(xs: seq<real>, k: int, v: real) {
    0 <= k < |xs| && v in xs && |Under(xs, v)| <= k && |Over(xs, v)| <= |xs| - 1 - k
  }

  /** The middle value, or half way between the two middle ones. */
  ghost predicate IsMedian(xs: seq<real>, m: real) {
    if |xs| % 2 == 1 then KthSmallest(xs, |xs| / 2, m)
    else exists a, b :: MiddleTwo(xs, a, b) && 2.0 * m == a + b
  }

  ghost predicate MiddleTwo(xs: seq<real>, a: real, b: real) {
    KthSmallest(xs, |xs| / 2 - 1, a) && KthSmallest(xs, |xs| / 2, b)
  }

  /** Between the two values around the position `q` of the way along the list, in proportion. */
  ghost predicate IsQuantile(xs: seq<real>, q: real, v: real) {
    exists k: nat, a, b :: QuantileBetween(xs, q, v, k, a, b)
  }

  ghost predicate QuantileBetween(xs: seq<real>, q: real, v: real, k: nat, a: real, b: real) {
    && KthSmallest(xs, k, a) && (if k + 1 < |xs| then KthSmallest(xs, k + 1, b) else b == a)
    && OnTheWay(q * (|xs| - 1) as real - k as real, a, b, v)
  }

  /** A share `t` below one of the way from `a` to `b`. */
  ghost predicate OnTheWay(t: real, a: real, b: real, v: real) {
    0.0 <= t < 1.0 && v == a + t * (b - a)
  }

  /** The indices listed in part of a sequence are no more than it is long. */
  lemma {:induction false} FewerElements(xs: seq<nat>)
    ensures |Elements(xs)| <= |xs|
  {
    if xs != [] {
      FewerElements(xs[1..]);
      assert Elements(xs) == {xs[0]} + Elements(xs[1..]);
    }
  }

  lemma SortedIsKth(values: seq<real>, k: nat)
    requires k < |values|
    ensures KthSmallest(values, k, Sorted(values)[k])
  {
    var ordered := Sorted(values);
    var v := ordered[k];
    assert StrictWeak(Smaller);
    var at := SortIsStable(values, Smaller);
    assert ordered[k] in ordered;
    SortedFacts(values);
    forall i | i in Under(values, v) ensures i in Elements(at[..k]) {
      var j := PositionOf(values, at, i);
      assert at[..k][j] == i;
    }
    forall i | i in Over(values, v) ensures i in Elements(at[k + 1..]) {
      var j := PositionOf(values, at, i);
      assert at[k + 1..][j - k - 1] == i;
    }
    FewerElements(at[..k]);
    FewerElements(at[k + 1..]);
    SubsetSize(Under(values, v), Elements(at[..k]));
    SubsetSize(Over(values, v), Elements(at[k + 1..]));
  }

  lemma PositionOf(values: seq<real>, at: seq<nat>, i: nat) returns (j: nat)
    requires StablePositions(values, Smaller, Sorted(values), at) && i < |values|
    ensures j < |at| && at[j] == i && Sorted(values)[j] == values[i]
  {
    assert i in at;
    j :| 0 <= j < |at| && at[j] == i;
  }

  lemma MedianIsMiddle(values: seq<real>)
    requires values != []
    ensures IsMedian(values, Median(values))
  {
    SortedIsKth(values, |values| / 2);
    if |values| % 2 == 0 {
      SortedIsKth(values, |values| / 2 - 1);
      assert MiddleTwo(values, Sorted(values)[|values| / 2 - 1], Sorted(values)[|values| / 2]);
    }
  }

  lemma QuantileIsBetween(values: seq<real>, q: real)
    requires values != [] && 0.0 <= q <= 1.0
    ensures IsQuantile(values, q, Quantile(values, q))
  {
    var position := PositionOn(values, q);
    var ordered := Sorted(values);
    var k, b := WayAt(ordered, position);
    SortedIsKth(values, k);
    if k + 1 < |values| {
      SortedIsKth(values, k + 1);
    }
    assert QuantileBetween(values, q, Quantile(values, q), k, ordered[k], b);
  }

  lemma PositionOn(values: seq<real>, q: real) returns (position: real)
    requires values != [] && 0.0 <= q <= 1.0
    ensures position == q * (|values| - 1) as real && 0.0 <= position <= (|values| - 1) as real
    ensures Quantile(values, q) == At(Sorted(values), position)
  {
    PositionFits(|values|, q);
    position := q * (|values| - 1) as real;
  }

  lemma WayAt(ordered: seq<real>, position: real) returns (k: nat, b: real)
    requires ordered != [] && 0.0 <= position <= (|ordered| - 1) as real
    ensures k < |ordered| && b == (if k + 1 < |ordered| then ordered[k + 1] else ordered[k])
    ensures OnTheWay(position - k as real, ordered[k], b, At(ordered, position))
  {
    k := position.Floor;
    b := if k + 1 < |ordered| then ordered[k + 1] else ordered[k];
  }
}
