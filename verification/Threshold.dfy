/**
 Calibrating a proposal threshold. The code maximises recall and then prefers the lowest
 threshold; because recall never rises with the threshold, that search returns the first
 grid point that has a true positive and enough precision.
 */
module Threshold {
  import opened Wrappers

  const GRID_SIZE: nat := 100

  function Grid(i: nat): real {
    0.50 + (i as real) * (0.99 - 0.50) / 99.0
  }

  /** How many examples with the given label reach the threshold, or miss it. */
  function Reaching(probabilities: seq<real>, labels: seq<int>, kind: int, t: real): nat
    requires |probabilities| == |labels|
  {
    if labels == [] then 0
    else (if probabilities[0] >= t && labels[0] == kind then 1 else 0) + Reaching(probabilities[1..], labels[1..], kind, t)
  }

  function Missing(probabilities: seq<real>, labels: seq<int>, kind: int, t: real): nat
    requires |probabilities| == |labels|
  {
    if labels == [] then 0
    else (if probabilities[0] < t && labels[0] == kind then 1 else 0) + Missing(probabilities[1..], labels[1..], kind, t)
  }

  function Ratio(part: nat, rest: nat, empty: real): real {
    if part + rest > 0 then (part as real) / ((part + rest) as real) else empty
  }

  function Precision(probabilities: seq<real>, labels: seq<int>, t: real): real
    requires |probabilities| == |labels|
  {
    Ratio(Reaching(probabilities, labels, 1, t), Reaching(probabilities, labels, 0, t), 1.0)
  }

  function Recall(probabilities: seq<real>, labels: seq<int>, t: real): real
    requires |probabilities| == |labels|
  {
    Ratio(Reaching(probabilities, labels, 1, t), Missing(probabilities, labels, 1, t), 0.0)
  }

  predicate Qualifies(probabilities: seq<real>, labels: seq<int>, target: real, i: nat)
    requires |probabilities| == |labels|
  {
    Reaching(probabilities, labels, 1, Grid(i)) > 0 && Precision(probabilities, labels, Grid(i)) >= target
  }

  /** Raising the threshold moves examples from reaching it to missing it. */
  lemma {:induction false} HigherReachesFewer(probabilities: seq<real>, labels: seq<int>, kind: int, low: real, high: real)
    requires |probabilities| == |labels| && low <= high
    ensures Reaching(probabilities, labels, kind, high) <= Reaching(probabilities, labels, kind, low)
    ensures Reaching(probabilities, labels, kind, high) + Missing(probabilities, labels, kind, high) ==
            Reaching(probabilities, labels, kind, low) + Missing(probabilities, labels, kind, low)
  {
    if labels != [] {
      HigherReachesFewer(probabilities[1..], labels[1..], kind, low, high);
    }
  }

  lemma DivideByPositive(a: real, b: real, c: real)
    requires a <= b && c > 0.0
    ensures a / c <= b / c
  {
  }

  lemma RecallNeverRises(probabilities: seq<real>, labels: seq<int>, low: real, high: real)
    requires |probabilities| == |labels| && low <= high
    ensures Recall(probabilities, labels, high) <= Recall(probabilities, labels, low)
  {
    HigherReachesFewer(probabilities, labels, 1, low, high);
    var all := Reaching(probabilities, labels, 1, low) + Missing(probabilities, labels, 1, low);
    if all > 0 {
      DivideByPositive(Reaching(probabilities, labels, 1, high) as real, Reaching(probabilities, labels, 1, low) as real, all as real);
    }
  }

  predicate Better(candidate: (real, real), best: (real, real)) {
    candidate.0 > best.0 || (candidate.0 == best.0 && candidate.1 > best.1)
  }

  /** The smallest qualifying grid point, if any. */
  ghost predicate IsFirst(probabilities: seq<real>, labels: seq<int>, target: real, first: nat)
    requires |probabilities| == |labels|
  {
    Qualifies(probabilities, labels, target, first) && forall j: nat :: j < first ==> !Qualifies(probabilities, labels, target, j)
  }

  /** The smallest grid threshold with a true positive and enough precision, or 0.99 if there is none. */
  ghost predicate Calibrated(probabilities: seq<real>, labels: seq<int>, target: real, threshold: real)
    requires |probabilities| == |labels|
  {
    || (exists first: nat :: first < GRID_SIZE && IsFirst(probabilities, labels, target, first) && threshold == Grid(first))
    || (threshold == 0.99 && forall i: nat :: i < GRID_SIZE ==> !Qualifies(probabilities, labels, target, i))
  }

  method ForPrecision(probabilities: seq<real>, labels: seq<int>, target: real) returns (threshold: real)
    requires |probabilities| == |labels|
    ensures Calibrated(probabilities, labels, target, threshold)
  {
    var best: Option<(real, real)> := None;
    ghost var first := 0;
    for i := 0 to GRID_SIZE
      invariant best.None? ==> forall j: nat :: j < i ==> !Qualifies(probabilities, labels, target, j)
      invariant best.Some? ==> first < i && IsFirst(probabilities, labels, target, first)
      invariant best.Some? ==> best.value == (Recall(probabilities, labels, Grid(first)), -Grid(first))
    {
      var t := Grid(i);
      var tp, fp := Reaching(probabilities, labels, 1, t), Reaching(probabilities, labels, 0, t);
      var fn := Missing(probabilities, labels, 1, t);
      var precision, recall := Ratio(tp, fp, 1.0), Ratio(tp, fn, 0.0);
      if tp > 0 && precision >= target {
        var candidate := (recall, -t);
        if best.Some? {
          RecallNeverRises(probabilities, labels, Grid(first), t);
        }
        if best.None? || Better(candidate, best.value) {
          best := Some(candidate);
          first := i;
        }
      }
    }
    threshold := if best.Some? then -best.value.1 else 0.99;
  }

  lemma GridBelowFallback(i: nat)
    requires i < GRID_SIZE
    ensures Grid(i) <= 0.99
  {
  }

  lemma GridRises(i: nat, j: nat)
    requires i <= j
    ensures Grid(i) <= Grid(j)
  {
  }

  /** Asking for more precision never lowers the calibrated threshold, fallbacks included. */
  lemma StricterTargetIsHigher(probabilities: seq<real>, labels: seq<int>, target: real, stricter: real, threshold: real, later: real)
    requires |probabilities| == |labels| && target <= stricter
    requires Calibrated(probabilities, labels, target, threshold) && Calibrated(probabilities, labels, stricter, later)
    ensures threshold <= later
  {
    forall i: nat | Qualifies(probabilities, labels, stricter, i) ensures Qualifies(probabilities, labels, target, i) {}
    if exists i: nat :: i < GRID_SIZE && Qualifies(probabilities, labels, target, i) {
      var first: nat :| first < GRID_SIZE && IsFirst(probabilities, labels, target, first) && threshold == Grid(first);
      GridBelowFallback(first);
      if j: nat :| j < GRID_SIZE && IsFirst(probabilities, labels, stricter, j) && later == Grid(j) {
        GridRises(first, j);
      }
    }
  }

  // --- grid, counts and precision, told apart from how they are computed ----------------------------------

  /** A hundred thresholds from a half to 0.99, evenly spaced. */
  lemma GridIsEven(i: nat)
    ensures Grid(0) == 0.50 && Grid(99) == 0.99 && GRID_SIZE == 100
    ensures Grid(i + 1) - Grid(i) == Grid(1) - Grid(0) && Grid(i) < Grid(i + 1)
  {
  }

  /** The examples with a label whose probability reaches the threshold, or misses it. */
  ghost function Marked(probabilities: seq<real>, labels: seq<int>, kind: int, t: real, reaching: bool): set<nat>
    requires |probabilities| == |labels|
  {
    set i: nat | i < |labels| && labels[i] == kind && (probabilities[i] >= t <==> reaching)
  }

  ghost function Shifted(s: set<nat>): set<nat> {
    set i: nat | i in s :: i + 1
  }

  lemma {:induction false} ShiftedSize(s: set<nat>)
    ensures |Shifted(s)| == |s|
    decreases |s|
  {
    if s != {} {
      var x :| x in s;
      ShiftedSize(s - {x});
      forall i ensures i in Shifted(s) <==> i in Shifted(s - {x}) || i == x + 1 {
        assert i > 0 ==> (i - 1 in s <==> i - 1 in s - {x} || i - 1 == x);
      }
      assert Shifted(s) == Shifted(s - {x}) + {x + 1};
    }
  }

  lemma MarkedMore(probabilities: seq<real>, labels: seq<int>, kind: int, t: real, reaching: bool)
    requires |probabilities| == |labels| > 0
    ensures |Marked(probabilities, labels, kind, t, reaching)| ==
            |Marked(probabilities[1..], labels[1..], kind, t, reaching)| + (if labels[0] == kind && (probabilities[0] >= t <==> reaching) then 1 else 0)
  {
    var all, rest := Marked(probabilities, labels, kind, t, reaching), Marked(probabilities[1..], labels[1..], kind, t, reaching);
    ShiftedSize(rest);
    forall i: nat | i > 0 ensures i in all <==> i in Shifted(rest) {
      assert i - 1 in rest <==> i in all;
      assert i - 1 in rest <==> i in Shifted(rest);
    }
    assert 0 !in Shifted(rest);
    assert all == if 0 in all then {0} + Shifted(rest) else Shifted(rest);
  }

  lemma {:induction false} CountsAre(probabilities: seq<real>, labels: seq<int>, kind: int, t: real)
    requires |probabilities| == |labels|
    ensures Reaching(probabilities, labels, kind, t) == |Marked(probabilities, labels, kind, t, true)|
    ensures Missing(probabilities, labels, kind, t) == |Marked(probabilities, labels, kind, t, false)|
  {
    if labels == [] {
      assert Marked(probabilities, labels, kind, t, true) == {} && Marked(probabilities, labels, kind, t, false) == {};
    } else {
      CountsAre(probabilities[1..], labels[1..], kind, t);
      MarkedMore(probabilities, labels, kind, t, true);
      MarkedMore(probabilities, labels, kind, t, false);
    }
  }

  lemma RatioAtLeast(part: nat, rest: nat, target: real)
    requires part > 0
    ensures Ratio(part, rest, 1.0) >= target <==> part as real >= target * (part + rest) as real
  {
    var all := (part + rest) as real;
    var share := part as real / all;
    assert share * all == part as real;
    if share >= target {
      assert (share - target) * all >= 0.0;
    } else {
      assert (target - share) * all > 0.0;
    }
  }

  /** A threshold qualifies when some positive reaches it, and positives make up the wanted share of all that do. */
  lemma QualifiesWhen(probabilities: seq<real>, labels: seq<int>, target: real, i: nat)
    requires |probabilities| == |labels|
    ensures var tp, fp := |Marked(probabilities, labels, 1, Grid(i), true)|, |Marked(probabilities, labels, 0, Grid(i), true)|;
      Qualifies(probabilities, labels, target, i) <==> tp > 0 && tp as real >= target * (tp + fp) as real
  {
    CountsAre(probabilities, labels, 1, Grid(i));
    CountsAre(probabilities, labels, 0, Grid(i));
    if Reaching(probabilities, labels, 1, Grid(i)) > 0 {
      RatioAtLeast(Reaching(probabilities, labels, 1, Grid(i)), Reaching(probabilities, labels, 0, Grid(i)), target);
    }
  }
}
