/**
 Routing a query by latency curves: observed latencies are grouped into families of
 anchors, and between two anchors every engine's latency is interpolated linearly.
 */
module RouteCurve {
  import opened Wrappers
  import opened Ordering
  import opened Numbers

  /** The routable engines, in the alphabetical order of their names. */
  datatype Candidate =
    | DatafusionHive | DatafusionMem | DatafusionVector | DuckHive | DuckVector | DuckVortex
    | GpuGqe | PgRowstore | RvbbitNative

  const CANDIDATES: seq<Candidate> :=
    [DatafusionHive, DatafusionMem, DatafusionVector, DuckHive, DuckVector, DuckVortex, GpuGqe, PgRowstore, RvbbitNative]

  type Times = map<Candidate, real>

  /** A dictionary of latencies, listed in the order its keys were inserted. */
  datatype Timing = Timing(candidate: Candidate, ms: real)

  // --- the fastest candidate -----------------------------------------------------------------------

  datatype Fastest = Fastest(best: Option<Timing>, next: Option<Timing>)

  predicate Quicker(x: Timing, y: Timing) {
    x.ms < y.ms
  }

  function Positive(timings: seq<Timing>): (r: seq<Timing>)
    ensures forall t :: t in r <==> t in timings && t.ms > 0.0
  {
    if timings == [] then []
    else if timings[0].ms > 0.0 then [timings[0]] + Positive(timings[1..])
    else Positive(timings[1..])
  }

  function ChooseFastest(timings: seq<Timing>): Fastest {
    var ordered := SortBy(Positive(timings), Quicker);
    Fastest(if ordered == [] then None else Some(ordered[0]), if |ordered| > 1 then Some(ordered[1]) else None)
  }

  function SpeedupConfidence(timings: seq<Timing>): real {
    var f := ChooseFastest(timings);
    if f.best.None? || f.next.None? || f.next.value.ms <= 0.0 then 0.0
    else
      var gain := 1.0 - f.best.value.ms / f.next.value.ms;
      var capped := if gain < 1.0 then gain else 1.0;
      if capped > 0.0 then capped else 0.0
  }

  lemma FastestFacts(timings: seq<Timing>)
    ensures var f := ChooseFastest(timings);
      && (f.best.None? <==> forall t :: t in timings ==> t.ms <= 0.0)
      && (f.best.Some? ==> f.best.value in timings && f.best.value.ms > 0.0)
      && (f.best.Some? ==> forall t :: t in timings && t.ms > 0.0 ==> f.best.value.ms <= t.ms)
      && (f.next.Some? ==> f.next.value in timings && f.next.value.ms > 0.0)
      && (f.best.Some? && f.next.None? ==> forall t :: t in timings && t.ms > 0.0 ==> t == f.best.value)
      && (f.next.Some? ==> f.best.Some?)
      && (f.next.Some? ==> forall t :: t in timings && t.ms > 0.0 && t != f.best.value ==> f.next.value.ms <= t.ms)
  {
    var positive := Positive(timings);
    var ordered := SortBy(positive, Quicker);
    assert StrictWeak(Quicker);
    SortInOrder(positive, Quicker);
    SortKeeps(positive, Quicker);
    if ordered == [] {
      forall t | t in timings ensures t.ms <= 0.0 { assert t !in ordered; }
    } else {
      assert ordered[0] in ordered;
      forall t | t in timings && t.ms > 0.0 ensures ordered[0].ms <= t.ms && (t != ordered[0] ==> |ordered| > 1 && ordered[1].ms <= t.ms) {
        assert t in ordered;
        var i :| 0 <= i < |ordered| && ordered[i] == t;
        assert i == 0 || !Quicker(ordered[i], ordered[0]);
        assert i <= 1 || !Quicker(ordered[i], ordered[1]);
      }
      if |ordered| > 1 { assert ordered[1] in ordered; }
    }
  }

  /** The confidence is a share of the runner-up's time, and positive exactly for a strict winner. */
  lemma ConfidenceFacts(timings: seq<Timing>)
    ensures 0.0 <= SpeedupConfidence(timings) < 1.0
    ensures var f := ChooseFastest(timings);
      SpeedupConfidence(timings) > 0.0 <==> f.next.Some? && f.best.value.ms < f.next.value.ms
  {
    FastestFacts(timings);
    var f := ChooseFastest(timings);
    if f.next.Some? {
      ShareOf(f.best.value.ms, f.next.value.ms);
    }
  }

  lemma ShareOf(a: real, b: real)
    requires a > 0.0 && b > 0.0
    ensures a / b > 0.0 && (a < b <==> a / b < 1.0)
  {
    assert b / b == 1.0;
    if a < b {
      assert a / b < b / b;
    } else {
      assert a / b >= b / b;
    }
  }

  // --- families of anchors ------------------------------------------------------------------------------

  /** One benchmark observation; the latencies kept are positive. */
  datatype Observation = Observation(family: Option<Id>, rows: int, times: Times)

  datatype Anchor = Anchor(rows: int, times: Times)

  ghost predicate PositiveTimes(times: Times) {
    forall c :: c in times ==> times[c] > 0.0
  }

  predicate Usable(o: Observation) {
    o.family.Some? && |o.times| >= 2 && o.rows > 0
  }

  /** The latencies observed for a family at a row count, in order. */
  function Samples(observations: seq<Observation>, family: Id, rows: int): (r: seq<Times>)
    ensures forall t :: t in r ==> exists o :: o in observations && Usable(o) && o.times == t
  {
    if observations == [] then []
    else
      var o := observations[|observations| - 1];
      assert observations == observations[..|observations| - 1] + [o];
      Samples(observations[..|observations| - 1], family, rows) +
      (if Usable(o) && o.family == Some(family) && o.rows == rows then [o.times] else [])
  }

  function Values(samples: seq<Times>, c: Candidate): (r: seq<real>)
    ensures forall v :: v in r ==> exists t :: t in samples && c in t && t[c] == v
    ensures (exists t :: t in samples && c in t) ==> r != []
  {
    if samples == [] then []
    else (if c in samples[0] then [samples[0][c]] else []) + Values(samples[1..], c)
  }

  function Medians(samples: seq<Times>): (r: Times)
    ensures forall c :: c in r <==> exists t :: t in samples && c in t
    ensures forall c :: c in r ==> Values(samples, c) != [] && r[c] == Median(Values(samples, c))
  {
    map c: Candidate | (exists t :: t in samples && c in t) :: Median(Values(samples, c))
  }

  function AnchorAt(observations: seq<Observation>, family: Id, rows: int): Anchor {
    Anchor(rows, Medians(Samples(observations, family, rows)))
  }

  /** The dictionary of dictionaries the observations are grouped into. */
  type Grouped = map<Id, map<int, seq<Times>>>

  function GroupedAt(grouped: Grouped, family: Id, rows: int): seq<Times> {
    if family in grouped && rows in grouped[family] then grouped[family][rows] else []
  }

  ghost predicate GroupedAs(observations: seq<Observation>, grouped: Grouped) {
    && (forall f, r :: GroupedAt(grouped, f, r) == Samples(observations, f, r))
    && (forall f :: f in grouped ==> grouped[f] != map[])
    && (forall f, r :: f in grouped && r in grouped[f] ==> grouped[f][r] != [])
  }

  function AddTo(grouped: Grouped, o: Observation): Grouped
    requires Usable(o)
  {
    var f := o.family.value;
    var byRows := if f in grouped then grouped[f] else map[];
    grouped[f := byRows[o.rows := (if o.rows in byRows then byRows[o.rows] else []) + [o.times]]]
  }

  lemma GroupOneMore(observations: seq<Observation>, grouped: Grouped, o: Observation)
    requires GroupedAs(observations, grouped)
    ensures GroupedAs(observations + [o], if Usable(o) then AddTo(grouped, o) else grouped)
  {
    var more := observations + [o];
    assert more[..|more| - 1] == observations;
    var now := if Usable(o) then AddTo(grouped, o) else grouped;
    forall f, r ensures GroupedAt(now, f, r) == Samples(more, f, r) {
      assert GroupedAt(grouped, f, r) == Samples(observations, f, r);
    }
    if Usable(o) {
      assert o.rows in now[o.family.value];
    }
  }

  method GroupObservations(observations: seq<Observation>) returns (grouped: Grouped)
    ensures GroupedAs(observations, grouped)
  {
    grouped := map[];
    for k := 0 to |observations|
      invariant GroupedAs(observations[..k], grouped)
    {
      GroupOneMore(observations[..k], grouped, observations[k]);
      assert observations[..k + 1] == observations[..k] + [observations[k]];
      if Usable(observations[k]) {
        grouped := AddTo(grouped, observations[k]);
      }
    }
    assert observations[..|observations|] == observations;
  }

  /** The row counts a family was usably observed at. */
  function RowCounts(observations: seq<Observation>, family: Id): set<int> {
    set o | o in observations && Usable(o) && o.family == Some(family) :: o.rows
  }

  lemma {:induction false} SampledRows(observations: seq<Observation>, family: Id, rows: int)
    ensures rows in RowCounts(observations, family) <==> Samples(observations, family, rows) != []
  {
    if observations != [] {
      var init, o := observations[..|observations| - 1], observations[|observations| - 1];
      SampledRows(init, family, rows);
      assert observations == init + [o];
      if rows in RowCounts(init, family) {
        var p :| p in init && Usable(p) && p.family == Some(family) && p.rows == rows;
        assert p in observations;
      }
      assert o in observations;
    }
  }

  /** The anchors of a family: one for every row count it was observed at, in ascending order. */
  ghost predicate AnchorsFor(observations: seq<Observation>, family: Id, anchors: seq<Anchor>) {
    && |anchors| == |RowCounts(observations, family)|
    && (forall i, j :: 0 <= i < j < |anchors| ==> anchors[i].rows < anchors[j].rows)
    && (forall i :: 0 <= i < |anchors| ==> AnchorIs(observations, family, anchors[i]))
  }

  ghost predicate AnchorIs(observations: seq<Observation>, family: Id, anchor: Anchor) {
    anchor.rows in RowCounts(observations, family) && anchor == AnchorAt(observations, family, anchor.rows)
  }

  /** The anchors at the listed row counts. */
  method AnchorsAt(ghost observations: seq<Observation>, byRows: map<int, seq<Times>>, family: Id, rows: seq<int>) returns (anchors: seq<Anchor>)
    requires forall r :: r in rows ==> r in byRows && byRows[r] == Samples(observations, family, r)
    ensures |anchors| == |rows|
    ensures forall i :: 0 <= i < |rows| ==> anchors[i] == AnchorAt(observations, family, rows[i])
  {
    anchors := [];
    for k := 0 to |rows|
      invariant |anchors| == k
      invariant forall i :: 0 <= i < k ==> anchors[i] == AnchorAt(observations, family, rows[i])
    {
      assert rows[k] in rows;
      anchors := anchors + [Anchor(rows[k], Medians(byRows[rows[k]]))];
    }
  }

  method BuildAnchors(ghost observations: seq<Observation>, grouped: Grouped, family: Id) returns (anchors: seq<Anchor>)
    requires GroupedAs(observations, grouped) && family in grouped
    ensures AnchorsFor(observations, family, anchors)
  {
    var rows := SortedSet(grouped[family].Keys);
    GroupedRows(observations, grouped, family);
    forall r | r in rows ensures r in grouped[family] && grouped[family][r] == Samples(observations, family, r) {
      assert r in Elements(rows);
      assert GroupedAt(grouped, family, r) == Samples(observations, family, r);
    }
    anchors := AnchorsAt(observations, grouped[family], family, rows);
    forall i | 0 <= i < |anchors| ensures AnchorIs(observations, family, anchors[i]) {
      assert rows[i] in Elements(rows);
    }
  }

  lemma GroupedRows(observations: seq<Observation>, grouped: Grouped, family: Id)
    requires GroupedAs(observations, grouped)
    ensures family in grouped ==> grouped[family].Keys == RowCounts(observations, family)
    ensures family !in grouped ==> RowCounts(observations, family) == {}
  {
    forall r ensures r in RowCounts(observations, family) <==> family in grouped && r in grouped[family] {
      SampledRows(observations, family, r);
      assert GroupedAt(grouped, family, r) == Samples(observations, family, r);
    }
  }

  ghost predicate FamiliesFor(observations: seq<Observation>, visited: seq<Id>, families: map<Id, seq<Anchor>>) {
    && (forall f :: f in families <==> f in visited && |RowCounts(observations, f)| >= 3)
    && (forall f :: f in families ==> AnchorsFor(observations, f, families[f]))
  }

  /** The anchors of every listed family, kept when there are three or more. */
  method FamiliesOf(ghost observations: seq<Observation>, grouped: Grouped, keys: seq<Id>) returns (families: map<Id, seq<Anchor>>)
    requires GroupedAs(observations, grouped) && forall f :: f in keys ==> f in grouped
    ensures FamiliesFor(observations, keys, families)
  {
    families := map[];
    for k := 0 to |keys|
      invariant FamiliesFor(observations, keys[..k], families)
    {
      var anchors := BuildAnchors(observations, grouped, keys[k]);
      assert keys[..k + 1] == keys[..k] + [keys[k]];
      if |anchors| >= 3 {
        families := families[keys[k] := anchors];
      }
    }
    assert keys[..|keys|] == keys;
  }

  /** Families observed at three row counts or more, whatever order the observations arrive in for different rows. */
  method BuildFamilies(observations: seq<Observation>) returns (families: map<Id, seq<Anchor>>)
    ensures forall f :: f in families <==> |RowCounts(observations, f)| >= 3
    ensures forall f :: f in families ==> AnchorsFor(observations, f, families[f])
  {
    var grouped := GroupObservations(observations);
    var keys := SortedSet(grouped.Keys);
    forall f ensures f in keys <==> f in grouped {
      assert f in keys <==> f in Elements(keys);
    }
    families := FamiliesOf(observations, grouped, keys);
    forall f | |RowCounts(observations, f)| >= 3 ensures f in keys {
      GroupedRows(observations, grouped, f);
    }
  }

  /** Anchors as every family has them: rising row counts and positive latencies of two engines or more. */
  ghost predicate Curve(anchors: seq<Anchor>) {
    && |anchors| >= 3
    && (forall i, j :: 0 <= i < j < |anchors| ==> anchors[i].rows < anchors[j].rows)
    && (forall i :: 0 <= i < |anchors| ==> PositiveTimes(anchors[i].times) && |anchors[i].times| >= 2)
  }

  lemma FamiliesAreCurves(observations: seq<Observation>, family: Id, anchors: seq<Anchor>)
    requires AnchorsFor(observations, family, anchors) && |anchors| >= 3
    requires forall o :: o in observations ==> PositiveTimes(o.times)
    ensures Curve(anchors)
  {
    forall i | 0 <= i < |anchors| ensures PositiveTimes(anchors[i].times) && |anchors[i].times| >= 2 {
      assert AnchorIs(observations, family, anchors[i]);
      SampledRows(observations, family, anchors[i].rows);
      MediansArePositive(Samples(observations, family, anchors[i].rows));
    }
  }

  lemma MediansArePositive(samples: seq<Times>)
    requires samples != [] && forall t :: t in samples ==> PositiveTimes(t) && |t| >= 2
    ensures PositiveTimes(Medians(samples)) && |Medians(samples)| >= 2
  {
    forall c | c in Medians(samples) ensures Medians(samples)[c] > 0.0 {
      var values := Values(samples, c);
      forall v | v in values ensures v > 0.0 {}
      MedianAbove(values, 0.0);
    }
    assert samples[0] in samples;
    assert samples[0].Keys <= Medians(samples).Keys;
    SubsetSize(samples[0].Keys, Medians(samples).Keys);
  }

  // --- between two anchors ------------------------------------------------------------------------------

  datatype Config = Config(enabled: set<Candidate>, minimum: Candidate -> real)

  datatype Decision = Decision(choice: Candidate, confidence: real)

  /** The engines both anchors know, listed by name. */
  function SharedFrom(lower: Anchor, upper: Anchor, names: seq<Candidate>): (r: seq<Candidate>)
    ensures forall c :: c in r <==> c in names && c in lower.times && c in upper.times
    ensures Distinct(names) ==> Distinct(r)
  {
    if names == [] then []
    else
      var rest := SharedFrom(lower, upper, names[1..]);
      if names[0] in lower.times && names[0] in upper.times then [names[0]] + rest else rest
  }

  function Predict(lower: Anchor, upper: Anchor, rows: int, c: Candidate): real
    requires c in lower.times && c in upper.times
  {
    if lower.rows == upper.rows then lower.times[c]
    else
      var position := (rows - lower.rows) as real / (upper.rows - lower.rows) as real;
      lower.times[c] + position * (upper.times[c] - lower.times[c])
  }

  function PredictAll(lower: Anchor, upper: Anchor, rows: int, cs: seq<Candidate>): (r: seq<Timing>)
    requires forall c :: c in cs ==> c in lower.times && c in upper.times
    ensures forall t :: t in r <==> t.candidate in cs && t.ms == Predict(lower, upper, rows, t.candidate)
  {
    if cs == [] then []
    else [Timing(cs[0], Predict(lower, upper, rows, cs[0]))] + PredictAll(lower, upper, rows, cs[1..])
  }

  function Without(timings: seq<Timing>, dropped: set<Candidate>): (r: seq<Timing>)
    ensures forall t :: t in r <==> t in timings && t.candidate !in dropped
  {
    if timings == [] then []
    else if timings[0].candidate in dropped then Without(timings[1..], dropped)
    else [timings[0]] + Without(timings[1..], dropped)
  }

  /** The row store is dropped when it wins by less than it needs. */
  function Contenders(routable: seq<Timing>, cfg: Config): seq<Timing> {
    var best := ChooseFastest(routable).best;
    if best.Some? && best.value.candidate == PgRowstore && SpeedupConfidence(routable) < cfg.minimum(PgRowstore)
    then Without(routable, {PgRowstore})
    else routable
  }

  function RoutableBetween(lower: Anchor, upper: Anchor, rows: int, cfg: Config): seq<Timing> {
    Without(PredictAll(lower, upper, rows, SharedFrom(lower, upper, CANDIDATES)), set c | c in CANDIDATES && c !in cfg.enabled)
  }

  /** What the curve decides between two anchors. */
  function Decide(lower: Anchor, upper: Anchor, rows: int, cfg: Config): Option<Decision> {
    if |SharedFrom(lower, upper, CANDIDATES)| < 2 then None
    else
      var contenders := Contenders(RoutableBetween(lower, upper, rows, cfg), cfg);
      var best := ChooseFastest(contenders).best;
      if best.None? || SpeedupConfidence(contenders) < cfg.minimum(best.value.candidate) then None
      else Some(Decision(best.value.candidate, SpeedupConfidence(contenders)))
  }

  ghost predicate Bracket(anchors: seq<Anchor>, rows: int, i: nat) {
    && i + 1 < |anchors| && anchors[i].rows <= rows <= anchors[i + 1].rows
    && forall j: nat :: 0 < j <= i ==> rows > anchors[j].rows
  }

  /** The loop over neighbouring anchors, which always finds a bracket inside the range. */
  method FindBracket(anchors: seq<Anchor>, rows: int) returns (i: nat)
    requires Curve(anchors) && anchors[0].rows <= rows <= anchors[|anchors| - 1].rows
    ensures Bracket(anchors, rows, i) && anchors[i].rows < anchors[i + 1].rows
  {
    i := 0;
    while !(anchors[i].rows <= rows <= anchors[i + 1].rows)
      invariant i + 1 < |anchors| && anchors[i].rows <= rows
      invariant forall j: nat :: 0 < j <= i ==> rows > anchors[j].rows
      decreases |anchors| - i
    {
      i := i + 1;
    }
  }

  method ChooseFromCurve(anchors: Option<seq<Anchor>>, rows: int, cfg: Config) returns (r: Option<Decision>)
    requires anchors.Some? ==> Curve(anchors.value)
    ensures (anchors.None? || rows <= 0 || rows < anchors.value[0].rows || rows > anchors.value[|anchors.value| - 1].rows) ==> r.None?
    ensures !(anchors.None? || rows <= 0 || rows < anchors.value[0].rows || rows > anchors.value[|anchors.value| - 1].rows) ==>
      exists i: nat :: Bracket(anchors.value, rows, i) && r == Decide(anchors.value[i], anchors.value[i + 1], rows, cfg)
  {
    if rows <= 0 {
      return None;
    }
    if anchors.None? || rows < anchors.value[0].rows || rows > anchors.value[|anchors.value| - 1].rows {
      return None;
    }
    var i := FindBracket(anchors.value, rows);
    r := Decide(anchors.value[i], anchors.value[i + 1], rows, cfg);
  }

  // --- dominance ----------------------------------------------------------------------------------------------

  lemma PositionInUnit(lower: Anchor, upper: Anchor, rows: int) returns (t: real)
    requires lower.rows <= rows <= upper.rows && lower.rows < upper.rows
    ensures t == (rows - lower.rows) as real / (upper.rows - lower.rows) as real && 0.0 <= t <= 1.0
  {
    var a, b := (rows - lower.rows) as real, (upper.rows - lower.rows) as real;
    t := a / b;
    assert b / b == 1.0 && a / b <= b / b;
  }

  /** A prediction lies between the two anchors' values. */
  lemma PredictionBetween(lower: Anchor, upper: Anchor, rows: int, c: Candidate)
    requires c in lower.times && c in upper.times && lower.rows <= rows <= upper.rows
    ensures lower.times[c] <= Predict(lower, upper, rows, c) <= upper.times[c] || upper.times[c] <= Predict(lower, upper, rows, c) <= lower.times[c]
  {
    if lower.rows != upper.rows {
      var t := PositionInUnit(lower, upper, rows);
      Interpolate(lower.times[c], upper.times[c], t);
    }
  }

  lemma Product(x: real, y: real)
    ensures x >= 0.0 && y >= 0.0 ==> x * y >= 0.0
    ensures x > 0.0 && y > 0.0 ==> x * y > 0.0
  {
  }

  lemma Interpolate(a: real, b: real, t: real)
    requires 0.0 <= t <= 1.0
    ensures a <= a + t * (b - a) <= b || b <= a + t * (b - a) <= a
  {
    var low, high := if a <= b then a else b, if a <= b then b else a;
    Product(t, high - low);
    Product(1.0 - t, high - low);
    assert (1.0 - t) * (high - low) == (high - low) - t * (high - low);
    assert t * (a - b) == -(t * (b - a));
  }

  lemma InterpolateBelow(a: real, b: real, c: real, d: real, t: real)
    requires 0.0 <= t <= 1.0 && a < c && b < d
    ensures a + t * (b - a) < c + t * (d - c)
  {
    if t == 1.0 {
      assert t * (b - a) == b - a && t * (d - c) == d - c;
    } else {
      Product(t, d - b);
      Product(1.0 - t, c - a);
      assert (1.0 - t) * (c - a) == (c - a) - t * (c - a);
      assert t * (d - b) == t * d - t * b && t * (c - a) == t * c - t * a;
      assert t * (d - c) == t * d - t * c && t * (b - a) == t * b - t * a;
    }
  }

  /** Faster at both anchors, faster at every row count between them. */
  lemma FasterThroughout(lower: Anchor, upper: Anchor, rows: int, c: Candidate, d: Candidate)
    requires c in lower.times && c in upper.times && d in lower.times && d in upper.times && lower.rows <= rows <= upper.rows
    requires lower.times[c] < lower.times[d] && upper.times[c] < upper.times[d]
    ensures Predict(lower, upper, rows, c) < Predict(lower, upper, rows, d)
  {
    if lower.rows < upper.rows {
      var t := PositionInUnit(lower, upper, rows);
      InterpolateBelow(lower.times[c], upper.times[c], lower.times[d], upper.times[d], t);
    }
  }

  /** An engine strictly faster than every other enabled shared engine at both anchors. */
  ghost predicate Dominates(lower: Anchor, upper: Anchor, cfg: Config, c: Candidate) {
    && c in cfg.enabled && c in lower.times && c in upper.times
    && forall d :: d in cfg.enabled && d in lower.times && d in upper.times && d != c ==>
         lower.times[c] < lower.times[d] && upper.times[c] < upper.times[d]
  }

  lemma EveryCandidateIsListed(c: Candidate)
    ensures c in CANDIDATES
  {
    assert CANDIDATES[match c case DatafusionHive => 0 case DatafusionMem => 1 case DatafusionVector => 2 case DuckHive => 3
      case DuckVector => 4 case DuckVortex => 5 case GpuGqe => 6 case PgRowstore => 7 case RvbbitNative => 8] == c;
  }

  lemma RoutableFacts(lower: Anchor, upper: Anchor, rows: int, cfg: Config)
    requires PositiveTimes(lower.times) && PositiveTimes(upper.times) && lower.rows <= rows <= upper.rows
    ensures forall t :: t in RoutableBetween(lower, upper, rows, cfg) <==>
      t.candidate in cfg.enabled && t.candidate in lower.times && t.candidate in upper.times && t.ms == Predict(lower, upper, rows, t.candidate)
    ensures forall t :: t in RoutableBetween(lower, upper, rows, cfg) ==> t.ms > 0.0
  {
    forall c: Candidate { EveryCandidateIsListed(c); }
    forall t | t in RoutableBetween(lower, upper, rows, cfg) ensures t.ms > 0.0 {
      PredictionBetween(lower, upper, rows, t.candidate);
    }
  }

  /** Between the anchors the curve chooses a dominating engine other than the row store, or nothing. */
  lemma CurveRespectsDominance(lower: Anchor, upper: Anchor, rows: int, cfg: Config, c: Candidate)
    requires PositiveTimes(lower.times) && PositiveTimes(upper.times) && lower.rows <= rows <= upper.rows
    requires Dominates(lower, upper, cfg, c) && c != PgRowstore
    ensures var r := Decide(lower, upper, rows, cfg);
            r.Some? ==> r.value.choice == c && r.value.confidence >= cfg.minimum(c)
    ensures Decide(lower, upper, rows, cfg).None? <==>
            |SharedFrom(lower, upper, CANDIDATES)| < 2 || SpeedupConfidence(RoutableBetween(lower, upper, rows, cfg)) < cfg.minimum(c)
  {
    var routable := RoutableBetween(lower, upper, rows, cfg);
    RoutableFacts(lower, upper, rows, cfg);
    FastestFacts(routable);
    var mine := Timing(c, Predict(lower, upper, rows, c));
    assert mine in routable;
    var best := ChooseFastest(routable).best;
    if best.value.candidate != c {
      FasterThroughout(lower, upper, rows, c, best.value.candidate);
    }
    assert Contenders(routable, cfg) == routable;
  }

  /** Whatever is chosen, only the row store may have been predicted faster, and then only narrowly. */
  lemma ChoiceIsFastestAllowed(lower: Anchor, upper: Anchor, rows: int, cfg: Config, t: Timing)
    requires PositiveTimes(lower.times) && PositiveTimes(upper.times) && lower.rows <= rows <= upper.rows
    requires Decide(lower, upper, rows, cfg).Some? && t in RoutableBetween(lower, upper, rows, cfg)
    ensures var r := Decide(lower, upper, rows, cfg).value;
      && r.choice in cfg.enabled && r.choice in lower.times && r.choice in upper.times
      && (t.ms < Predict(lower, upper, rows, r.choice) ==>
            t.candidate == PgRowstore && SpeedupConfidence(RoutableBetween(lower, upper, rows, cfg)) < cfg.minimum(PgRowstore))
  {
    var routable := RoutableBetween(lower, upper, rows, cfg);
    RoutableFacts(lower, upper, rows, cfg);
    FastestFacts(routable);
    FastestFacts(Contenders(routable, cfg));
  }
}
