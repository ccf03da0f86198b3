/**
 The decision of the latency curve, told from the predictions alone: which engine is first,
 by what margin, when the row store is dropped and when nothing is chosen.
 */
module RouteRules {
  import opened Wrappers
  import opened Ordering
  import opened RouteCurve
  import Numbers

  /** Alphabetical position of the engine's name. */
  function NameRank(c: Candidate): nat {
    match c
    case DatafusionHive => 0
    case DatafusionMem => 1
    case DatafusionVector => 2
    case DuckHive => 3
    case DuckVector => 4
    case DuckVortex => 5
    case GpuGqe => 6
    case PgRowstore => 7
    case RvbbitNative => 8
  }

  /** Predicted faster, or as fast and named first. */
  ghost predicate Leads(p: Times, c: Candidate, d: Candidate)
    requires c in p && d in p
  {
    p[c] < p[d] || (p[c] == p[d] && NameRank(c) < NameRank(d))
  }

  ghost predicate First(p: Times, c: Candidate) {
    c in p && forall d :: d in p && d != c ==> Leads(p, c, d)
  }

  /** The first engine saves the share `m` of the latency of the runner-up. */
  ghost predicate Saves(p: Times, b: Candidate, n: Candidate, m: real) {
    First(p, b) && First(p - {b}, n) && IsShare(m, p[b], p[n])
  }

  /** The share of the larger latency that the smaller one saves. */
  ghost predicate IsShare(m: real, best: real, next: real) {
    m * next == next - best
  }

  /** The margin of the first engine; nothing without a runner-up. */
  ghost predicate Margin(p: Times, m: real) {
    if |p| < 2 then m == 0.0 else exists b, n :: Saves(p, b, n, m)
  }

  /** The first of the contenders is chosen when its margin is enough for it. */
  ghost predicate ChosenFrom(p: Times, cfg: Config, r: Option<Decision>) {
    if p == map[] then r == None
    else exists b, m :: First(p, b) && Margin(p, m) && r == if m < cfg.minimum(b) then None else Some(Decision(b, m))
  }

  /** The row store leads by less than it needs. */
  ghost predicate NarrowRowstore(p: Times, cfg: Config) {
    First(p, PgRowstore) && exists m :: Margin(p, m) && m < cfg.minimum(PgRowstore)
  }

  /** What both anchors know, on the line between them. */
  ghost function Predictions(lower: Anchor, upper: Anchor, rows: int): Times {
    map c | c in lower.times.Keys * upper.times.Keys :: Predict(lower, upper, rows, c)
  }

  ghost function Enabled(p: Times, cfg: Config): Times {
    map c | c in p && c in cfg.enabled :: p[c]
  }

  /** The decision: among the enabled engines both anchors know, the row store dropped when it leads narrowly. */
  ghost predicate Decided(lower: Anchor, upper: Anchor, rows: int, cfg: Config, r: Option<Decision>) {
    var p := Enabled(Predictions(lower, upper, rows), cfg);
    if |Predictions(lower, upper, rows)| < 2 then r == None
    else ChosenFrom(if NarrowRowstore(p, cfg) then p - {PgRowstore} else p, cfg, r)
  }

  // --- predictions ----------------------------------------------------------------------------------------

  /** A prediction is the average of the anchors' values, weighted by the distance to the other anchor. */
  lemma PredictionIsWeighted(lower: Anchor, upper: Anchor, rows: int, c: Candidate)
    requires c in lower.times && c in upper.times && lower.rows < upper.rows
    ensures Predict(lower, upper, rows, c) * (upper.rows - lower.rows) as real ==
            lower.times[c] * (upper.rows - rows) as real + upper.times[c] * (rows - lower.rows) as real
    ensures Predict(lower, upper, lower.rows, c) == lower.times[c] && Predict(lower, upper, upper.rows, c) == upper.times[c]
  {
    var d := (upper.rows - lower.rows) as real;
    Weighted(lower.times[c], upper.times[c], (rows - lower.rows) as real, d);
    Weighted(lower.times[c], upper.times[c], d, d);
    assert d / d == 1.0;
  }

  lemma Weighted(a: real, b: real, x: real, d: real)
    requires d > 0.0
    ensures (a + x / d * (b - a)) * d == a * (d - x) + b * x
  {
    var t := x / d;
    assert t * d == x;
    assert t * (b - a) * d == (t * d) * (b - a);
  }

  // --- the code's lists -------------------------------------------------------------------------------------

  /** The timings are these predictions, listed by name. */
  ghost predicate Lists(p: Times, timings: seq<Timing>) {
    (forall t :: t in timings <==> t.candidate in p && p[t.candidate] == t.ms) && ByName(timings)
  }

  ghost predicate ByName(timings: seq<Timing>) {
    forall i, j :: 0 <= i < j < |timings| ==> NameRank(timings[i].candidate) < NameRank(timings[j].candidate)
  }

  ghost predicate NamesRise(cs: seq<Candidate>) {
    forall i, j :: 0 <= i < j < |cs| ==> NameRank(cs[i]) < NameRank(cs[j])
  }

  lemma {:induction false} SharedByName(lower: Anchor, upper: Anchor, names: seq<Candidate>)
    requires NamesRise(names)
    ensures NamesRise(SharedFrom(lower, upper, names))
  {
    if names != [] {
      SharedByName(lower, upper, names[1..]);
      forall d | d in SharedFrom(lower, upper, names[1..]) ensures NameRank(names[0]) < NameRank(d) {
        var i :| 0 <= i < |names[1..]| && names[1..][i] == d;
        assert names[i + 1] == d;
      }
    }
  }

  lemma {:induction false} PredictedByName(lower: Anchor, upper: Anchor, rows: int, cs: seq<Candidate>)
    requires NamesRise(cs) && forall c :: c in cs ==> c in lower.times && c in upper.times
    ensures ByName(PredictAll(lower, upper, rows, cs))
  {
    if cs != [] {
      PredictedByName(lower, upper, rows, cs[1..]);
      forall t | t in PredictAll(lower, upper, rows, cs[1..]) ensures NameRank(cs[0]) < NameRank(t.candidate) {
        var i :| 0 <= i < |cs[1..]| && cs[1..][i] == t.candidate;
        assert cs[i + 1] == t.candidate;
      }
    }
  }

  lemma {:induction false} WithoutByName(timings: seq<Timing>, dropped: set<Candidate>)
    requires ByName(timings)
    ensures ByName(Without(timings, dropped))
  {
    if timings != [] {
      WithoutByName(timings[1..], dropped);
      forall t | t in Without(timings[1..], dropped) ensures NameRank(timings[0].candidate) < NameRank(t.candidate) {
        var i :| 0 <= i < |timings[1..]| && timings[1..][i] == t;
        assert timings[i + 1] == t;
      }
    }
  }

  lemma NamesAreListed()
    ensures NamesRise(CANDIDATES) && forall c: Candidate :: c in CANDIDATES
  {
    forall c: Candidate { EveryCandidateIsListed(c); }
  }

  lemma {:induction false} RisingIsDistinct(cs: seq<Candidate>)
    requires NamesRise(cs)
    ensures Distinct(cs)
  {
  }

  lemma SharedIsListed(lower: Anchor, upper: Anchor, names: seq<Candidate>)
    requires NamesRise(names) && forall c: Candidate :: c in names
    ensures NamesRise(SharedFrom(lower, upper, names))
    ensures |SharedFrom(lower, upper, names)| == |lower.times.Keys * upper.times.Keys|
  {
    var shared := SharedFrom(lower, upper, names);
    SharedByName(lower, upper, names);
    RisingIsDistinct(shared);
    DistinctSize(shared);
    assert Elements(shared) == lower.times.Keys * upper.times.Keys;
  }

  lemma RoutableLists(lower: Anchor, upper: Anchor, rows: int, cfg: Config)
    ensures Lists(Enabled(Predictions(lower, upper, rows), cfg), RoutableBetween(lower, upper, rows, cfg))
  {
    var shared := SharedFrom(lower, upper, CANDIDATES);
    NamesAreListed();
    SharedIsListed(lower, upper, CANDIDATES);
    PredictedByName(lower, upper, rows, shared);
    WithoutByName(PredictAll(lower, upper, rows, shared), set c | c in CANDIDATES && c !in cfg.enabled);
  }

  lemma {:induction false} AllPositive(timings: seq<Timing>)
    requires forall t :: t in timings ==> t.ms > 0.0
    ensures Positive(timings) == timings
  {
    if timings != [] {
      assert timings[0] in timings;
      AllPositive(timings[1..]);
    }
  }

  ghost predicate Earlier(x: Timing, y: Timing) {
    x.ms < y.ms || (x.ms == y.ms && NameRank(x.candidate) < NameRank(y.candidate))
  }

  /** Sorting timings listed by name puts ties in the order of their names. */
  lemma SortedByName(timings: seq<Timing>)
    requires ByName(timings)
    ensures |SortBy(timings, Quicker)| == |timings| && forall t :: t in SortBy(timings, Quicker) <==> t in timings
    ensures forall i, j :: 0 <= i < j < |timings| ==> Earlier(SortBy(timings, Quicker)[i], SortBy(timings, Quicker)[j])
  {
    assert StrictWeak(Quicker);
    SortKeeps(timings, Quicker);
    var at := SortIsStable(timings, Quicker);
  }

  /** The fastest two of positive timings listed by name. */
  lemma FastestTwo(timings: seq<Timing>)
    requires ByName(timings) && forall t :: t in timings ==> t.ms > 0.0
    ensures var f := ChooseFastest(timings); (f.best.Some? <==> |timings| > 0) && (f.next.Some? <==> |timings| > 1)
    ensures var f := ChooseFastest(timings); f.best.Some? ==> BestOf(timings, f.best.value)
    ensures var f := ChooseFastest(timings); f.next.Some? ==> NextOf(timings, f.best.value, f.next.value)
  {
    AllPositive(timings);
    SortedByName(timings);
    var ordered := SortBy(timings, Quicker);
    if ordered != [] {
      assert ordered[0] in ordered;
      forall t | t in timings && t != ordered[0] ensures Earlier(ordered[0], t) && (t != ordered[1] ==> Earlier(ordered[1], t)) && |ordered| > 1 {
        var i :| 0 <= i < |ordered| && ordered[i] == t;
      }
      if |ordered| > 1 {
        assert ordered[1] in ordered && Earlier(ordered[0], ordered[1]);
      }
    }
  }

  ghost predicate BestOf(timings: seq<Timing>, best: Timing) {
    best in timings && forall t :: t in timings && t != best ==> Earlier(best, t)
  }

  ghost predicate NextOf(timings: seq<Timing>, best: Timing, next: Timing) {
    next in timings && next != best && forall t :: t in timings && t != best && t != next ==> Earlier(next, t)
  }

  lemma ShareSaved(best: real, next: real) returns (gain: real)
    requires 0.0 < best <= next
    ensures gain == 1.0 - best / next && 0.0 <= gain < 1.0 && gain * next == next - best
  {
    gain := 1.0 - best / next;
    ShareOf(best, next);
    assert best / next * next == best;
    assert next / next == 1.0 && best / next <= next / next;
  }

  /** The confidence is the share of the runner-up's latency that the best saves. */
  lemma ConfidenceIsShare(timings: seq<Timing>)
    requires ChooseFastest(timings).best.Some? && ChooseFastest(timings).next.Some?
    requires 0.0 < ChooseFastest(timings).best.value.ms <= ChooseFastest(timings).next.value.ms
    ensures var f := ChooseFastest(timings); IsShare(SpeedupConfidence(timings), f.best.value.ms, f.next.value.ms)
  {
    var f := ChooseFastest(timings);
    var gain := ShareSaved(f.best.value.ms, f.next.value.ms);
    assert SpeedupConfidence(timings) == gain;
  }

  lemma SavesOf(p: Times, b: Candidate, n: Candidate, m: real, best: real, next: real)
    requires First(p, b) && First(p - {b}, n) && p[b] == best && p[n] == next && IsShare(m, best, next)
    ensures Saves(p, b, n, m)
  {
  }

  lemma ListedSize(p: Times, timings: seq<Timing>)
    requires Lists(p, timings)
    ensures |p| == |timings|
  {
    var names := seq(|timings|, i requires 0 <= i < |timings| => timings[i].candidate);
    DistinctSize(names);
    forall c ensures c in Elements(names) <==> c in p.Keys {
      if c in p {
        assert Timing(c, p[c]) in timings;
        var i :| 0 <= i < |timings| && timings[i] == Timing(c, p[c]);
        assert names[i] == c;
      }
      if c in names {
        var i :| 0 <= i < |names| && names[i] == c;
        assert timings[i] in timings;
      }
    }
    assert Elements(names) == p.Keys;
  }

  lemma BestIsFirst(p: Times, timings: seq<Timing>, best: Timing)
    requires Lists(p, timings) && BestOf(timings, best)
    ensures First(p, best.candidate) && p[best.candidate] == best.ms
  {
    forall d | d in p && d != best.candidate ensures Leads(p, best.candidate, d) {
      assert Timing(d, p[d]) in timings;
    }
  }

  lemma NextIsFirst(p: Times, timings: seq<Timing>, best: Timing, next: Timing)
    requires Lists(p, timings) && best in timings && NextOf(timings, best, next)
    ensures First(p - {best.candidate}, next.candidate) && p[next.candidate] == next.ms
  {
    var rest := p - {best.candidate};
    forall d | d in rest && d != next.candidate ensures Leads(rest, next.candidate, d) {
      assert Timing(d, p[d]) in timings;
    }
  }

  /** The best of the list is first, and the confidence is its margin. */
  lemma ListedFirst(p: Times, timings: seq<Timing>)
    requires Lists(p, timings) && forall t :: t in timings ==> t.ms > 0.0
    ensures ChooseFastest(timings).best.Some? <==> p != map[]
    ensures ChooseFastest(timings).best.Some? ==> First(p, ChooseFastest(timings).best.value.candidate)
    ensures Margin(p, SpeedupConfidence(timings))
  {
    var f := ChooseFastest(timings);
    FastestTwo(timings);
    ListedSize(p, timings);
    if f.best.Some? {
      BestIsFirst(p, timings, f.best.value);
    }
    if f.next.Some? {
      RunnerUpGivesMargin(p, timings);
    }
  }

  lemma RunnerUpGivesMargin(p: Times, timings: seq<Timing>)
    requires Lists(p, timings) && (forall t :: t in timings ==> t.ms > 0.0) && |timings| > 1
    ensures ChooseFastest(timings).best.Some? && ChooseFastest(timings).next.Some?
    ensures Saves(p, ChooseFastest(timings).best.value.candidate, ChooseFastest(timings).next.value.candidate, SpeedupConfidence(timings))
  {
    FastestTwo(timings);
    var f := ChooseFastest(timings);
    assert Earlier(f.best.value, f.next.value);
    ConfidenceIsShare(timings);
    BestAndNextSave(p, timings, f.best.value, f.next.value, SpeedupConfidence(timings));
  }

  lemma BestAndNextSave(p: Times, timings: seq<Timing>, best: Timing, next: Timing, m: real)
    requires Lists(p, timings) && BestOf(timings, best) && NextOf(timings, best, next) && IsShare(m, best.ms, next.ms)
    ensures Saves(p, best.candidate, next.candidate, m)
  {
    BestIsFirst(p, timings, best);
    NextIsFirst(p, timings, best, next);
    SavesOf(p, best.candidate, next.candidate, m, best.ms, next.ms);
  }

  // --- the rules determine the decision ----------------------------------------------------------------------

  lemma FirstIsUnique(p: Times, c: Candidate, d: Candidate)
    requires First(p, c) && First(p, d)
    ensures c == d
  {
  }

  lemma SavesIsUnique(p: Times, b: Candidate, x: Candidate, m: real, d: Candidate, y: Candidate, n: real)
    requires Saves(p, b, x, m) && Saves(p, d, y, n) && forall c :: c in p ==> p[c] > 0.0
    ensures m == n
  {
    FirstIsUnique(p, b, d);
    FirstIsUnique(p - {b}, x, y);
    SameShare(m, n, p[x], p[y], p[b], p[d]);
  }

  lemma SameShare(m: real, n: real, x: real, y: real, b: real, d: real)
    requires x == y > 0.0 && b == d && m * x == x - b && n * y == y - d
    ensures m == n
  {
    assert m * x == n * x;
    assert (m - n) * x == 0.0;
  }

  lemma MarginIsUnique(p: Times, m: real, n: real)
    requires Margin(p, m) && Margin(p, n) && forall c :: c in p ==> p[c] > 0.0
    ensures m == n
  {
    if |p| >= 2 {
      var b, x :| Saves(p, b, x, m);
      var d, y :| Saves(p, d, y, n);
      SavesIsUnique(p, b, x, m, d, y, n);
    }
  }

  lemma RowstoreNarrow(p: Times, cfg: Config, timings: seq<Timing>)
    requires Lists(p, timings) && forall t :: t in timings ==> t.ms > 0.0
    ensures var best := ChooseFastest(timings).best;
      NarrowRowstore(p, cfg) <==> best.Some? && best.value.candidate == PgRowstore && SpeedupConfidence(timings) < cfg.minimum(PgRowstore)
  {
    ListedFirst(p, timings);
    var best := ChooseFastest(timings).best;
    forall c | c in p ensures p[c] > 0.0 {
      assert Timing(c, p[c]) in timings;
    }
    if NarrowRowstore(p, cfg) {
      FirstIsUnique(p, best.value.candidate, PgRowstore);
      var m :| Margin(p, m) && m < cfg.minimum(PgRowstore);
      MarginIsUnique(p, m, SpeedupConfidence(timings));
    }
  }

  lemma ContendersListed(p: Times, cfg: Config, timings: seq<Timing>)
    requires Lists(p, timings) && forall t :: t in timings ==> t.ms > 0.0
    ensures Lists(if NarrowRowstore(p, cfg) then p - {PgRowstore} else p, Contenders(timings, cfg))
    ensures forall t :: t in Contenders(timings, cfg) ==> t.ms > 0.0
  {
    RowstoreNarrow(p, cfg, timings);
    WithoutByName(timings, {PgRowstore});
  }

  /** What the code decides between two anchors is what the rules say. */
  lemma DecisionFollowsRules(lower: Anchor, upper: Anchor, rows: int, cfg: Config)
    requires PositiveTimes(lower.times) && PositiveTimes(upper.times) && lower.rows <= rows <= upper.rows
    ensures Decided(lower, upper, rows, cfg, Decide(lower, upper, rows, cfg))
  {
    var p := Enabled(Predictions(lower, upper, rows), cfg);
    var routable := RoutableBetween(lower, upper, rows, cfg);
    NamesAreListed();
    SharedIsListed(lower, upper, CANDIDATES);
    assert Predictions(lower, upper, rows).Keys == lower.times.Keys * upper.times.Keys;
    RoutableLists(lower, upper, rows, cfg);
    RoutableFacts(lower, upper, rows, cfg);
    ContendersListed(p, cfg, routable);
    ListDecides(if NarrowRowstore(p, cfg) then p - {PgRowstore} else p, cfg, Contenders(routable, cfg));
  }

  lemma ListDecides(p: Times, cfg: Config, contenders: seq<Timing>)
    requires Lists(p, contenders) && forall t :: t in contenders ==> t.ms > 0.0
    ensures var best := ChooseFastest(contenders).best;
      ChosenFrom(p, cfg, if best.None? || SpeedupConfidence(contenders) < cfg.minimum(best.value.candidate) then None
                         else Some(Decision(best.value.candidate, SpeedupConfidence(contenders))))
  {
    ListedFirst(p, contenders);
  }

  /** The rules leave one decision. */
  lemma RulesDecide(lower: Anchor, upper: Anchor, rows: int, cfg: Config, r: Option<Decision>)
    requires PositiveTimes(lower.times) && PositiveTimes(upper.times) && lower.rows <= rows <= upper.rows
    requires Decided(lower, upper, rows, cfg, r)
    ensures r == Decide(lower, upper, rows, cfg)
  {
    DecisionFollowsRules(lower, upper, rows, cfg);
    var all := Enabled(Predictions(lower, upper, rows), cfg);
    var p := if NarrowRowstore(all, cfg) then all - {PgRowstore} else all;
    forall c | c in all ensures all[c] > 0.0 {
      PredictionBetween(lower, upper, rows, c);
    }
    if |Predictions(lower, upper, rows)| >= 2 {
      ChosenIsUnique(p, cfg, r, Decide(lower, upper, rows, cfg));
    }
  }

  lemma ChosenIsUnique(p: Times, cfg: Config, r: Option<Decision>, s: Option<Decision>)
    requires ChosenFrom(p, cfg, r) && ChosenFrom(p, cfg, s) && forall c :: c in p ==> p[c] > 0.0
    ensures r == s
  {
    if p != map[] {
      var b, m :| First(p, b) && Margin(p, m) && r == if m < cfg.minimum(b) then None else Some(Decision(b, m));
      var d, n :| First(p, d) && Margin(p, n) && s == if n < cfg.minimum(d) then None else Some(Decision(d, n));
      FirstIsUnique(p, b, d);
      MarginIsUnique(p, m, n);
    }
  }

  // --- the anchors, told from the observations -----------------------------------------------------------------

  /** A usable observation of a family at a row count: positive rows, and two engines or more. */
  ghost predicate ObservedAt(o: Observation, family: Id, rows: int) {
    o.family == Some(family) && o.rows == rows && rows > 0 && exists c, d :: c in o.times && d in o.times && c != d
  }

  /** The latencies of one engine at a row count of a family, in the order of the observations. */
  ghost predicate Latencies(observations: seq<Observation>, family: Id, rows: int, c: Candidate, values: seq<real>, at: seq<nat>) {
    && |at| == |values| && (forall i, j :: 0 <= i < j < |at| ==> at[i] < at[j])
    && (forall i :: 0 <= i < |at| ==> LatencyAt(observations, family, rows, c, values[i], at[i]))
    && (forall k: nat :: k < |observations| && ObservedAt(observations[k], family, rows) && c in observations[k].times ==> k in at)
  }

  ghost predicate LatencyAt(observations: seq<Observation>, family: Id, rows: int, c: Candidate, value: real, k: nat) {
    k < |observations| && ObservedAt(observations[k], family, rows) && c in observations[k].times && observations[k].times[c] == value
  }

  lemma TwoEngines(times: Times)
    ensures |times| >= 2 <==> exists c, d :: c in times && d in times && c != d
  {
    if |times| >= 2 {
      var c :| c in times;
      assert |times.Keys - {c}| == |times| - 1;
      var d :| d in times.Keys - {c};
    }
    if c, d :| c in times && d in times && c != d {
      assert {c, d} <= times.Keys;
      SubsetSize({c, d}, times.Keys);
    }
  }

  lemma UsableIsObserved(o: Observation, family: Id, rows: int)
    ensures Usable(o) && o.family == Some(family) && o.rows == rows <==> ObservedAt(o, family, rows)
  {
    TwoEngines(o.times);
  }

  lemma {:induction false} ValuesConcat(a: seq<Times>, b: seq<Times>, c: Candidate)
    ensures Values(a + b, c) == Values(a, c) + Values(b, c)
    decreases |a|
  {
    if a == [] {
      assert a + b == b;
    } else {
      assert (a + b)[0] == a[0] && (a + b)[1..] == a[1..] + b;
      ValuesConcat(a[1..], b, c);
    }
  }

  lemma {:induction false} SampledLatencies(observations: seq<Observation>, family: Id, rows: int, c: Candidate) returns (at: seq<nat>)
    ensures Latencies(observations, family, rows, c, Values(Samples(observations, family, rows), c), at)
    decreases |observations|
  {
    if observations == [] {
      return [];
    }
    var init, o := observations[..|observations| - 1], observations[|observations| - 1];
    at := SampledLatencies(init, family, rows, c);
    OneMoreLatency(observations, family, rows, c, Values(Samples(init, family, rows), c), at);
    OneMoreSample(observations, family, rows, c);
    if ObservedAt(o, family, rows) && c in o.times {
      at := at + [|observations| - 1];
    }
  }

  lemma OneMoreSample(observations: seq<Observation>, family: Id, rows: int, c: Candidate)
    requires observations != []
    ensures var o := observations[|observations| - 1];
      Values(Samples(observations, family, rows), c) ==
      Values(Samples(observations[..|observations| - 1], family, rows), c) +
      (if ObservedAt(o, family, rows) && c in o.times then [o.times[c]] else [])
  {
    var o := observations[|observations| - 1];
    var before := Samples(observations[..|observations| - 1], family, rows);
    UsableIsObserved(o, family, rows);
    if ObservedAt(o, family, rows) {
      ValuesConcat(before, [o.times], c);
      assert [o.times][1..] == [];
    } else {
      assert Samples(observations, family, rows) == before + [] == before;
    }
  }

  lemma OneMoreLatency(observations: seq<Observation>, family: Id, rows: int, c: Candidate, values: seq<real>, at: seq<nat>)
    requires observations != [] && Latencies(observations[..|observations| - 1], family, rows, c, values, at)
    ensures var o := observations[|observations| - 1];
      if ObservedAt(o, family, rows) && c in o.times
      then Latencies(observations, family, rows, c, values + [o.times[c]], at + [|observations| - 1])
      else Latencies(observations, family, rows, c, values, at)
  {
    var init := observations[..|observations| - 1];
    forall i | 0 <= i < |at| ensures LatencyAt(observations, family, rows, c, values[i], at[i]) && at[i] < |init| {
      assert LatencyAt(init, family, rows, c, values[i], at[i]);
    }
    forall k: nat | k < |init| && ObservedAt(observations[k], family, rows) && c in observations[k].times ensures k in at {
      assert init[k] == observations[k];
    }
  }

  /** A family has an anchor at exactly the row counts it was usably observed at. */
  lemma AnchorRows(observations: seq<Observation>, family: Id, anchors: seq<Anchor>, rows: int)
    requires AnchorsFor(observations, family, anchors)
    ensures (exists i :: 0 <= i < |anchors| && anchors[i].rows == rows) <==> exists o :: o in observations && ObservedAt(o, family, rows)
  {
    forall o ensures Usable(o) && o.family == Some(family) && o.rows == rows <==> ObservedAt(o, family, rows) {
      UsableIsObserved(o, family, rows);
    }
    var listed := seq(|anchors|, i requires 0 <= i < |anchors| => anchors[i].rows);
    DistinctSize(listed);
    assert forall i :: 0 <= i < |anchors| ==> AnchorIs(observations, family, anchors[i]);
    forall r | r in Elements(listed) ensures r in RowCounts(observations, family) {
      var i :| 0 <= i < |listed| && listed[i] == r;
    }
    SameSize(Elements(listed), RowCounts(observations, family));
    if rows in RowCounts(observations, family) {
      assert rows in Elements(listed);
      var i :| 0 <= i < |listed| && listed[i] == rows;
    }
  }

  lemma SameSize(a: set<int>, b: set<int>)
    requires a <= b && |a| == |b|
    ensures a == b
  {
    forall x | x in b ensures x in a {
      if x !in a {
        SmallerSet(a, b, x);
      }
    }
  }

  /** An anchor's latency of an engine is the median of all usable observations of it. */
  lemma AnchorIsMedian(observations: seq<Observation>, family: Id, anchors: seq<Anchor>, i: nat, c: Candidate)
    requires AnchorsFor(observations, family, anchors) && i < |anchors|
    ensures c in anchors[i].times <==> exists o :: o in observations && ObservedAt(o, family, anchors[i].rows) && c in o.times
    ensures c in anchors[i].times ==>
      exists values, at :: Latencies(observations, family, anchors[i].rows, c, values, at) && Numbers.IsMedian(values, anchors[i].times[c])
  {
    var rows := anchors[i].rows;
    assert AnchorIs(observations, family, anchors[i]);
    var samples := Samples(observations, family, rows);
    var at := SampledLatencies(observations, family, rows, c);
    if c in anchors[i].times {
      Numbers.MedianIsMiddle(Values(samples, c));
      assert LatencyAt(observations, family, rows, c, Values(samples, c)[0], at[0]);
    }
    if o :| o in observations && ObservedAt(o, family, rows) && c in o.times {
      var k: nat :| k < |observations| && observations[k] == o;
      assert k in at;
      var j :| 0 <= j < |at| && at[j] == k;
      assert Values(samples, c)[j] in Values(samples, c);
    }
  }
}
