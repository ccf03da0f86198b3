/**
 Excavation units: every neighbourhood of sources cut into shards of bounded size and
 population, and the validator's rules for a list of units.
 */
module ExcavationUnits {
  import opened Wrappers
  import opened Ordering
  import Neighborhoods
  import Sharding

  datatype Population = Population(id: Id, source: Option<Id>, isContext: bool)

  datatype Motif = Motif(id: Id, source: Option<Id>, population: Option<Id>)

  datatype Corpus = Corpus(populations: seq<Population>, motifs: seq<Motif>)

  ghost predicate ValidCorpus(corpus: Corpus) {
    && (forall i, j :: 0 <= i < j < |corpus.populations| ==> corpus.populations[i].id != corpus.populations[j].id)
    && (forall i, j :: 0 <= i < j < |corpus.motifs| ==> corpus.motifs[i].id != corpus.motifs[j].id)
  }

  /** No two populations, and no two motifs, share an id. */
  method ValidateCorpus(corpus: Corpus) returns (ok: bool)
    ensures ok <==> ValidCorpus(corpus)
  {
    var populationIds: set<Id>, motifIds: set<Id> := {}, {};
    for k := 0 to |corpus.populations|
      invariant forall i, j :: 0 <= i < j < k ==> corpus.populations[i].id != corpus.populations[j].id
      invariant forall x :: x in populationIds <==> exists i :: 0 <= i < k && corpus.populations[i].id == x
    {
      if corpus.populations[k].id in populationIds {
        return false;
      }
      populationIds := populationIds + {corpus.populations[k].id};
    }
    for k := 0 to |corpus.motifs|
      invariant forall i, j :: 0 <= i < j < k ==> corpus.motifs[i].id != corpus.motifs[j].id
      invariant forall x :: x in motifIds <==> exists i :: 0 <= i < k && corpus.motifs[i].id == x
    {
      if corpus.motifs[k].id in motifIds {
        return false;
      }
      motifIds := motifIds + {corpus.motifs[k].id};
    }
    return true;
  }

  /** The sources that some population comes from. */
  ghost function Available(corpus: Corpus): set<Id> {
    set p | p in corpus.populations && p.source.Some? :: p.source.value
  }

  method CorpusSources(corpus: Corpus) returns (sources: set<Id>)
    ensures sources == Available(corpus)
  {
    sources := {};
    for k := 0 to |corpus.populations|
      invariant forall s :: s in sources <==> exists i :: 0 <= i < k && corpus.populations[i].source == Some(s)
    {
      if corpus.populations[k].source.Some? {
        sources := sources + {corpus.populations[k].source.value};
      }
    }
    forall s ensures s in sources <==> s in Available(corpus) {
      if p :| p in corpus.populations && p.source == Some(s) {
        var i :| 0 <= i < |corpus.populations| && corpus.populations[i] == p;
      }
    }
  }

  datatype LinkKind = CrossNeighborhood | NeighborhoodBoundary

  /** Everything that stable identifiers are computed from; only the injectivity of the hash matters. */
  datatype Name =
    | UnitName(neighborhood: Id, members: seq<Id>)
    | LinkName(kind: LinkKind, left: Id, right: Id)
    | MotifName(motif: Id)
    | CorrespondenceName(scope: Id, left: Id, right: Id)
    | SynthesisName(subject: Id)
    | BridgeName(subject: Id)

  ghost predicate Injective(hash: Name -> Id) {
    forall a, b :: hash(a) == hash(b) ==> a == b
  }

  // --- populations by source -------------------------------------------------------------------

  /** The populations of a source that are not mere context, in corpus order. */
  function At(populations: seq<Population>, source: Id): seq<Id> {
    if populations == [] then []
    else
      var p := populations[|populations| - 1];
      At(populations[..|populations| - 1], source) + (if p.source == Some(source) && !p.isContext then [p.id] else [])
  }

  function SourceMap(populations: seq<Population>): map<Id, Id> {
    if populations == [] then map[]
    else
      var p := populations[|populations| - 1];
      var rest := SourceMap(populations[..|populations| - 1]);
      if p.source.Some? then rest[p.id := p.source.value] else rest
  }

  predicate AllSourced(populations: seq<Population>) {
    forall p :: p in populations ==> p.source.Some?
  }

  type BySource = map<Id, seq<Id>>

  function Get(bySource: BySource, source: Id): seq<Id> {
    if source in bySource then bySource[source] else []
  }

  ghost predicate GroupedAs(populations: seq<Population>, bySource: BySource) {
    forall s :: Get(bySource, s) == At(populations, s)
  }

  function FileOne(bySource: BySource, p: Population): BySource {
    if p.source.Some? && !p.isContext then bySource[p.source.value := Get(bySource, p.source.value) + [p.id]] else bySource
  }

  lemma FiledOneMore(populations: seq<Population>, k: nat, bySource: BySource)
    requires k < |populations| && GroupedAs(populations[..k], bySource)
    ensures GroupedAs(populations[..k + 1], FileOne(bySource, populations[k]))
  {
    var more := populations[..k + 1];
    assert more[..k] == populations[..k] && more[k] == populations[k];
    forall s ensures Get(FileOne(bySource, populations[k]), s) == At(more, s) {
      assert Get(bySource, s) == At(populations[..k], s);
    }
  }

  method GroupPopulations(populations: seq<Population>) returns (ok: bool, sourceOf: map<Id, Id>, bySource: BySource)
    ensures ok <==> AllSourced(populations)
    ensures ok ==> sourceOf == SourceMap(populations) && GroupedAs(populations, bySource)
  {
    sourceOf, bySource := map[], map[];
    for k := 0 to |populations|
      invariant AllSourced(populations[..k])
      invariant sourceOf == SourceMap(populations[..k]) && GroupedAs(populations[..k], bySource)
    {
      var p := populations[k];
      if p.source.None? {
        assert p in populations;
        return false, sourceOf, bySource;
      }
      assert populations[..k + 1] == populations[..k] + [p] && populations[..k + 1][..k] == populations[..k];
      FiledOneMore(populations, k, bySource);
      sourceOf := sourceOf[p.id := p.source.value];
      if !p.isContext {
        bySource := bySource[p.source.value := Get(bySource, p.source.value) + [p.id]];
      }
    }
    assert populations[..|populations|] == populations;
    ok := true;
  }

  predicate AllCountable(populations: seq<Population>) {
    forall p :: p in populations && !p.isContext ==> p.source.Some?
  }

  /** The validator's own count, which asks nothing of context populations. */
  method CountPopulations(populations: seq<Population>) returns (ok: bool, bySource: BySource)
    ensures ok <==> AllCountable(populations)
    ensures ok ==> GroupedAs(populations, bySource)
  {
    bySource := map[];
    for k := 0 to |populations|
      invariant AllCountable(populations[..k]) && GroupedAs(populations[..k], bySource)
    {
      var p := populations[k];
      assert p in populations;
      if !p.isContext && p.source.None? {
        return false, bySource;
      }
      assert populations[..k + 1] == populations[..k] + [p];
      FiledOneMore(populations, k, bySource);
      if !p.isContext {
        bySource := bySource[p.source.value := Get(bySource, p.source.value) + [p.id]];
      }
    }
    assert populations[..|populations|] == populations;
    ok := true;
  }

  function PopulationCount(populations: seq<Population>, sources: seq<Id>): nat {
    if sources == [] then 0
    else PopulationCount(populations, sources[..|sources| - 1]) + |At(populations, sources[|sources| - 1])|
  }

  function CountOf(bySource: BySource, sources: seq<Id>): nat {
    if sources == [] then 0 else CountOf(bySource, sources[..|sources| - 1]) + |Get(bySource, sources[|sources| - 1])|
  }

  lemma {:induction false} CountIsPopulationCount(populations: seq<Population>, bySource: BySource, sources: seq<Id>)
    requires GroupedAs(populations, bySource)
    ensures CountOf(bySource, sources) == PopulationCount(populations, sources)
  {
    if sources != [] {
      CountIsPopulationCount(populations, bySource, sources[..|sources| - 1]);
      assert Get(bySource, sources[|sources| - 1]) == At(populations, sources[|sources| - 1]);
    }
  }

  function WeightsFor(bySource: BySource, members: seq<Id>): map<Id, int> {
    map s | s in members :: |Get(bySource, s)|
  }

  function WeightsOf(populations: seq<Population>, members: seq<Id>): map<Id, int> {
    map s | s in members :: |At(populations, s)|
  }

  lemma {:induction false} LoadIsCount(populations: seq<Population>, members: seq<Id>, part: seq<Id>)
    requires forall s :: s in part ==> s in members
    ensures Sharding.Load(WeightsOf(populations, members), part) == PopulationCount(populations, part)
  {
    if part != [] {
      assert part[|part| - 1] in part;
      LoadIsCount(populations, members, part[..|part| - 1]);
    }
  }

  // --- units ---------------------------------------------------------------------------------------

  datatype UnitKind = Singleton | Shard | Whole

  datatype Unit = Unit(
    id: Id, parent: Id, sources: seq<Id>, populationCount: Option<int>, oversized: Option<bool>,
    kind: UnitKind, shardIndex: int, shardCount: int)

  predicate Oversized(bounds: Sharding.Bounds, sources: seq<Id>, count: int) {
    bounds.populations.Some? && |sources| == 1 && count > bounds.populations.value
  }

  function AllSources(units: seq<Unit>): seq<Id> {
    if units == [] then [] else AllSources(units[..|units| - 1]) + units[|units| - 1].sources
  }

  /** The validator's rule for one unit. */
  ghost predicate UnitWithin(populations: seq<Population>, bounds: Sharding.Bounds, expected: set<Id>, u: Unit) {
    var count := PopulationCount(populations, u.sources);
    && u.sources != [] && |u.sources| <= bounds.sources
    && (forall s :: s in u.sources ==> s in expected)
    && (u.populationCount.Some? ==> u.populationCount.value == count)
    && (bounds.populations.Some? && count > bounds.populations.value ==> |u.sources| <= 1)
    && (u.oversized.Some? ==> (u.oversized.value <==> bounds.populations.Some? && |u.sources| == 1 && count > bounds.populations.value))
  }

  predicate UnitIdsDistinct(units: seq<Unit>) {
    forall i, j :: 0 <= i < j < |units| ==> units[i].id != units[j].id
  }

  ghost predicate ValidUnits(populations: seq<Population>, bounds: Sharding.Bounds, expected: set<Id>, units: seq<Unit>) {
    && units != [] && UnitIdsDistinct(units)
    && (forall u :: u in units ==> UnitWithin(populations, bounds, expected, u))
    && Distinct(AllSources(units)) && Elements(AllSources(units)) == expected
  }

  datatype UnitError = NoUnits | DuplicateUnit | BadSourceBounds | UnknownSource | BadCount | OverPopulation | BadFlag | NotPartition

  method ValidateUnit(bySource: BySource, ghost populations: seq<Population>, bounds: Sharding.Bounds, expected: set<Id>, u: Unit)
    returns (r: Option<UnitError>)
    requires GroupedAs(populations, bySource)
    ensures r.None? <==> UnitWithin(populations, bounds, expected, u)
  {
    if u.sources == [] || |u.sources| > bounds.sources {
      return Some(BadSourceBounds);
    }
    if exists s :: s in u.sources && s !in expected {
      return Some(UnknownSource);
    }
    var count := CountOf(bySource, u.sources);
    CountIsPopulationCount(populations, bySource, u.sources);
    if u.populationCount.Some? && u.populationCount.value != count {
      return Some(BadCount);
    }
    if bounds.populations.Some? && count > bounds.populations.value && |u.sources| > 1 {
      return Some(OverPopulation);
    }
    if u.oversized.Some? && u.oversized.value != Oversized(bounds, u.sources, count) {
      return Some(BadFlag);
    }
    return None;
  }

  /** What the unit loop has gathered from the units read so far. */
  ghost predicate UnitsRead(
      populations: seq<Population>, bounds: Sharding.Bounds, expected: set<Id>, units: seq<Unit>,
      ids: set<Id>, partition: seq<Id>, sourcesOf: map<Id, seq<Id>>)
  {
    && UnitIdsDistinct(units)
    && (forall u :: u in units ==> UnitWithin(populations, bounds, expected, u))
    && (forall x :: x in ids <==> exists u :: u in units && u.id == x)
    && partition == AllSources(units) && sourcesOf == SourcesOf(units)
  }

  function SourcesOf(units: seq<Unit>): map<Id, seq<Id>> {
    if units == [] then map[]
    else SourcesOf(units[..|units| - 1])[units[|units| - 1].id := units[|units| - 1].sources]
  }

  lemma ReadUnit(
      populations: seq<Population>, bounds: Sharding.Bounds, expected: set<Id>, units: seq<Unit>,
      ids: set<Id>, partition: seq<Id>, sourcesOf: map<Id, seq<Id>>, u: Unit)
    requires UnitsRead(populations, bounds, expected, units, ids, partition, sourcesOf)
    requires u.id !in ids && UnitWithin(populations, bounds, expected, u)
    ensures UnitsRead(populations, bounds, expected, units + [u], ids + {u.id}, partition + u.sources, sourcesOf[u.id := u.sources])
  {
    var more := units + [u];
    assert more[..|units|] == units;
    forall i, j | 0 <= i < j < |more| ensures more[i].id != more[j].id {
      assert more[i] in units;
    }
    forall x ensures x in ids + {u.id} <==> exists v :: v in more && v.id == x {
      assert u in more;
      if x in ids {
        var v :| v in units && v.id == x;
        assert v in more;
      }
    }
  }

  method ValidateUnits(bySource: BySource, ghost populations: seq<Population>, bounds: Sharding.Bounds, expected: set<Id>, units: seq<Unit>)
    returns (r: Option<UnitError>, ids: set<Id>, sourcesOf: map<Id, seq<Id>>)
    requires GroupedAs(populations, bySource)
    ensures r.None? <==> ValidUnits(populations, bounds, expected, units)
    ensures r.None? ==> sourcesOf == SourcesOf(units) && forall x :: x in ids <==> exists u :: u in units && u.id == x
  {
    ids, sourcesOf := {}, map[];
    if units == [] {
      return Some(NoUnits), ids, sourcesOf;
    }
    var partition: seq<Id> := [];
    for i := 0 to |units|
      invariant UnitsRead(populations, bounds, expected, units[..i], ids, partition, sourcesOf)
    {
      var u := units[i];
      assert u in units;
      if u.id in ids {
        assert exists k :: 0 <= k < i && units[..i][k].id == u.id;
        return Some(DuplicateUnit), ids, sourcesOf;
      }
      var bad := ValidateUnit(bySource, populations, bounds, expected, u);
      if bad.Some? {
        return bad, ids, sourcesOf;
      }
      ReadUnit(populations, bounds, expected, units[..i], ids, partition, sourcesOf, u);
      assert units[..i + 1] == units[..i] + [u];
      ids := ids + {u.id};
      partition := partition + u.sources;
      sourcesOf := sourcesOf[u.id := u.sources];
    }
    assert units[..|units|] == units;
    if !Distinct(partition) || Elements(partition) != expected {
      return Some(NotPartition), ids, sourcesOf;
    }
    r := None;
  }

  // --- building the units ----------------------------------------------------------------------------

  function KindOf(size: nat, shardCount: nat): UnitKind {
    if size == 1 && shardCount == 1 then Singleton else if shardCount > 1 then Shard else Whole
  }

  function UnitFrom(populations: seq<Population>, bounds: Sharding.Bounds, hash: Name -> Id, neighborhood: Id, parts: seq<seq<Id>>, k: nat): Unit
    requires k < |parts|
  {
    var count := PopulationCount(populations, parts[k]);
    Unit(hash(UnitName(neighborhood, parts[k])), neighborhood, parts[k], Some(count), Some(Oversized(bounds, parts[k], count)),
         KindOf(|parts[k]|, |parts|), k + 1, |parts|)
  }

  /** The units of one neighbourhood's shards, numbered from one. */
  function UnitsIn(populations: seq<Population>, bounds: Sharding.Bounds, hash: Name -> Id, neighborhood: Id, parts: seq<seq<Id>>, k: nat): (r: seq<Unit>)
    requires k <= |parts|
    ensures |r| == k
  {
    if k == 0 then []
    else UnitsIn(populations, bounds, hash, neighborhood, parts, k - 1) + [UnitFrom(populations, bounds, hash, neighborhood, parts, k - 1)]
  }

  /** The shards are the greedy split of the neighbourhood's members. */
  ghost predicate ShardsOf(
      populations: seq<Population>, tight: seq<Neighborhoods.Affinity>, bounds: Sharding.Bounds, n: Neighborhoods.Neighborhood, parts: seq<seq<Id>>)
  {
    var members, weights := Elements(n.members), WeightsOf(populations, n.members);
    && Sharding.GoodParts(weights, bounds, members, parts)
    && (if Sharding.FitsWhole(weights, bounds, SortedSet(members)) then parts == [SortedSet(members)]
        else exists orders :: SplitInto(weights, tight, bounds, members, orders, parts))
  }

  ghost predicate SplitInto(
      weights: map<Id, int>, tight: seq<Neighborhoods.Affinity>, bounds: Sharding.Bounds, members: set<Id>, orders: seq<seq<Id>>, parts: seq<seq<Id>>)
  {
    && Sharding.GreedySplit(Sharding.AdjacencyOf(tight, members), weights, bounds, members, orders)
    && Sharding.Taken(orders) == members && Sharding.Listed(orders, parts)
  }

  /** The units of the first neighbourhoods, in order. */
  function UnitsOf(populations: seq<Population>, bounds: Sharding.Bounds, hash: Name -> Id, ns: seq<Neighborhoods.Neighborhood>, shards: seq<seq<seq<Id>>>): seq<Unit>
    requires |shards| == |ns|
  {
    if ns == [] then []
    else
      var last := |ns| - 1;
      UnitsOf(populations, bounds, hash, ns[..last], shards[..last]) +
      UnitsIn(populations, bounds, hash, ns[last].id, shards[last], |shards[last]|)
  }

  // --- the units partition the sources ------------------------------------------------------------

  ghost predicate Apart(units: seq<Unit>) {
    && (forall g :: 0 <= g < |units| ==> Distinct(units[g].sources))
    && (forall g, h, s :: 0 <= g < h < |units| && s in units[g].sources ==> s !in units[h].sources)
  }

  lemma {:induction false} SourcesAreSources(units: seq<Unit>, s: Id)
    ensures s in AllSources(units) <==> exists u :: u in units && s in u.sources
  {
    if units != [] {
      SourcesAreSources(units[..|units| - 1], s);
      assert units == units[..|units| - 1] + [units[|units| - 1]];
    }
  }

  lemma {:induction false} ApartIsDistinct(units: seq<Unit>)
    requires Apart(units)
    ensures Distinct(AllSources(units))
  {
    if units != [] {
      var init, last := units[..|units| - 1], units[|units| - 1];
      ApartIsDistinct(init);
      forall k | 0 <= k < |last.sources| ensures last.sources[k] !in AllSources(init) {
        SourcesAreSources(init, last.sources[k]);
        assert last.sources[k] in last.sources;
      }
      Neighborhoods.DistinctConcat(AllSources(init), last.sources);
    }
  }

  lemma ApartConcat(a: seq<Unit>, b: seq<Unit>)
    requires Apart(a) && Apart(b)
    requires forall u, v, s :: u in a && v in b && s in u.sources ==> s !in v.sources
    ensures Apart(a + b)
  {
    var all := a + b;
    forall g, h, s | 0 <= g < h < |all| && s in all[g].sources ensures s !in all[h].sources {
      if g < |a| <= h {
        assert all[g] in a && all[h] in b;
      }
    }
  }

  /** The block of one neighbourhood: its units are its parts, each once. */
  lemma {:induction false} BlockFacts(
      populations: seq<Population>, bounds: Sharding.Bounds, hash: Name -> Id, n: Id, parts: seq<seq<Id>>, k: nat)
    requires k <= |parts|
    ensures forall j :: 0 <= j < k ==> UnitsIn(populations, bounds, hash, n, parts, k)[j] == UnitFrom(populations, bounds, hash, n, parts, j)
  {
    if k > 0 {
      BlockFacts(populations, bounds, hash, n, parts, k - 1);
    }
  }

  lemma BlockIsApart(populations: seq<Population>, bounds: Sharding.Bounds, hash: Name -> Id, n: Id, parts: seq<seq<Id>>,
                     weights: map<Id, int>, members: set<Id>)
    requires Sharding.GoodParts(weights, bounds, members, parts)
    ensures Apart(UnitsIn(populations, bounds, hash, n, parts, |parts|))
    ensures forall s :: s in members <==> exists u :: u in UnitsIn(populations, bounds, hash, n, parts, |parts|) && s in u.sources
  {
    var block := UnitsIn(populations, bounds, hash, n, parts, |parts|);
    BlockFacts(populations, bounds, hash, n, parts, |parts|);
    forall g | 0 <= g < |block| ensures Distinct(block[g].sources) {
      Sharding.AscendingIsDistinct(parts[g]);
    }
    forall g, h, s | 0 <= g < h < |block| && s in block[g].sources ensures s !in block[h].sources {
      assert s in Elements(parts[g]);
    }
    forall s ensures s in members <==> exists u :: u in block && s in u.sources {
      if s in members {
        var k :| 0 <= k < |parts| && s in parts[k];
        assert block[k] in block;
      }
      if u :| u in block && s in u.sources {
        var k :| 0 <= k < |block| && block[k] == u;
        assert s in parts[k];
      }
    }
  }

  ghost predicate AllSharded(
      populations: seq<Population>, tight: seq<Neighborhoods.Affinity>, bounds: Sharding.Bounds, ns: seq<Neighborhoods.Neighborhood>, shards: seq<seq<seq<Id>>>)
  {
    |shards| == |ns| && forall g :: 0 <= g < |ns| ==> ShardsOf(populations, tight, bounds, ns[g], shards[g])
  }

  lemma {:induction false} UnitsAreApart(
      populations: seq<Population>, tight: seq<Neighborhoods.Affinity>, bounds: Sharding.Bounds, hash: Name -> Id,
      ns: seq<Neighborhoods.Neighborhood>, shards: seq<seq<seq<Id>>>)
    requires Neighborhoods.Disjoint(ns) && AllSharded(populations, tight, bounds, ns, shards)
    ensures Apart(UnitsOf(populations, bounds, hash, ns, shards))
    ensures forall s :: s in Neighborhoods.AllMembers(ns) <==> exists u :: u in UnitsOf(populations, bounds, hash, ns, shards) && s in u.sources
  {
    if ns != [] {
      var last := |ns| - 1;
      var a, b := UnitsOf(populations, bounds, hash, ns[..last], shards[..last]),
                  UnitsIn(populations, bounds, hash, ns[last].id, shards[last], |shards[last]|);
      UnitsAreApart(populations, tight, bounds, hash, ns[..last], shards[..last]);
      assert ShardsOf(populations, tight, bounds, ns[last], shards[last]);
      BlockIsApart(populations, bounds, hash, ns[last].id, shards[last], WeightsOf(populations, ns[last].members), Elements(ns[last].members));
      forall u, v, s | u in a && v in b && s in u.sources ensures s !in v.sources {
        assert s in Neighborhoods.AllMembers(ns[..last]);
        Neighborhoods.MembersAreMembers(ns[..last], s);
        assert s in ns[last].members <==> s in Elements(ns[last].members);
      }
      ApartConcat(a, b);
      forall s ensures s in Neighborhoods.AllMembers(ns) <==> exists u :: u in a + b && s in u.sources {
        assert s in Elements(ns[last].members) <==> exists u :: u in b && s in u.sources;
        if s in Neighborhoods.AllMembers(ns[..last]) {
          var u :| u in a && s in u.sources;
          assert u in a + b;
        } else if s in ns[last].members {
          var u :| u in b && s in u.sources;
          assert u in a + b;
        }
      }
    }
  }

  // --- every unit obeys its bounds --------------------------------------------------------------------

  ghost predicate BuiltFrom(
      populations: seq<Population>, bounds: Sharding.Bounds, hash: Name -> Id, ns: seq<Neighborhoods.Neighborhood>, shards: seq<seq<seq<Id>>>,
      u: Unit, g: nat, k: nat)
  {
    && g < |ns| == |shards| && k < |shards[g]|
    && u == UnitFrom(populations, bounds, hash, ns[g].id, shards[g], k)
  }

  lemma {:induction false} UnitOrigin(
      populations: seq<Population>, bounds: Sharding.Bounds, hash: Name -> Id, ns: seq<Neighborhoods.Neighborhood>, shards: seq<seq<seq<Id>>>, u: Unit)
    returns (g: nat, k: nat)
    requires |shards| == |ns| && u in UnitsOf(populations, bounds, hash, ns, shards)
    ensures BuiltFrom(populations, bounds, hash, ns, shards, u, g, k)
  {
    var last := |ns| - 1;
    var block := UnitsIn(populations, bounds, hash, ns[last].id, shards[last], |shards[last]|);
    if u in block {
      BlockFacts(populations, bounds, hash, ns[last].id, shards[last], |shards[last]|);
      g := last;
      k :| k < |block| && block[k] == u;
    } else {
      g, k := UnitOrigin(populations, bounds, hash, ns[..last], shards[..last], u);
    }
  }

  lemma PartIsWithin(
      populations: seq<Population>, bounds: Sharding.Bounds, hash: Name -> Id,
      n: Neighborhoods.Neighborhood, parts: seq<seq<Id>>, k: nat, expected: set<Id>)
    requires bounds.sources >= 1 && k < |parts|
    requires Sharding.GoodParts(WeightsOf(populations, n.members), bounds, Elements(n.members), parts)
    requires Elements(n.members) <= expected
    ensures UnitWithin(populations, bounds, expected, UnitFrom(populations, bounds, hash, n.id, parts, k))
  {
    var part, weights := parts[k], WeightsOf(populations, n.members);
    forall s | s in part ensures s in Elements(n.members) {
      assert 0 <= k < |parts| && s in parts[k];
    }
    LoadIsCount(populations, n.members, part);
    assert Sharding.WithinBounds(weights, bounds, part);
  }

  lemma BuiltUnitIsWithin(
      populations: seq<Population>, tight: seq<Neighborhoods.Affinity>, bounds: Sharding.Bounds, hash: Name -> Id,
      ns: seq<Neighborhoods.Neighborhood>, shards: seq<seq<seq<Id>>>, u: Unit, expected: set<Id>)
    requires bounds.sources >= 1
    requires AllSharded(populations, tight, bounds, ns, shards) && Elements(Neighborhoods.AllMembers(ns)) == expected
    requires u in UnitsOf(populations, bounds, hash, ns, shards)
    ensures UnitWithin(populations, bounds, expected, u) && u.id == hash(UnitName(u.parent, u.sources))
  {
    var g, k := UnitOrigin(populations, bounds, hash, ns, shards, u);
    assert ShardsOf(populations, tight, bounds, ns[g], shards[g]);
    forall s | s in Elements(ns[g].members) ensures s in expected {
      Neighborhoods.MembersAreMembers(ns, s);
      assert s in Elements(Neighborhoods.AllMembers(ns));
    }
    PartIsWithin(populations, bounds, hash, ns[g], shards[g], k, expected);
  }

  lemma ApartIdsDistinct(units: seq<Unit>, hash: Name -> Id)
    requires Apart(units) && Injective(hash)
    requires forall u :: u in units ==> u.sources != [] && u.id == hash(UnitName(u.parent, u.sources))
    ensures UnitIdsDistinct(units)
  {
    forall i, j | 0 <= i < j < |units| ensures units[i].id != units[j].id {
      var u, v := units[i], units[j];
      assert u in units && v in units;
      var s := u.sources[0];
      assert s in units[i].sources;
      assert UnitName(u.parent, u.sources) != UnitName(v.parent, v.sources);
    }
  }

  /** Whatever the neighbourhoods, their shards make a list of units that the validator accepts. */
  lemma UnitsAreValid(
      populations: seq<Population>, tight: seq<Neighborhoods.Affinity>, bounds: Sharding.Bounds, hash: Name -> Id,
      sources: seq<Id>, ns: seq<Neighborhoods.Neighborhood>, shards: seq<seq<seq<Id>>>)
    requires bounds.sources >= 1 && Injective(hash) && sources != []
    requires Neighborhoods.Disjoint(ns) && Elements(Neighborhoods.AllMembers(ns)) == Elements(sources)
    requires AllSharded(populations, tight, bounds, ns, shards)
    ensures ValidUnits(populations, bounds, Elements(sources), UnitsOf(populations, bounds, hash, ns, shards))
    ensures Apart(UnitsOf(populations, bounds, hash, ns, shards))
  {
    var units := UnitsOf(populations, bounds, hash, ns, shards);
    UnitsAreApart(populations, tight, bounds, hash, ns, shards);
    ApartIsDistinct(units);
    SameSources(units, ns, sources);
    assert sources[0] in Elements(AllSources(units));
    forall u | u in units ensures UnitWithin(populations, bounds, Elements(sources), u) && u.id == hash(UnitName(u.parent, u.sources)) {
      BuiltUnitIsWithin(populations, tight, bounds, hash, ns, shards, u, Elements(sources));
    }
    ApartIdsDistinct(units, hash);
  }

  lemma SameSources(units: seq<Unit>, ns: seq<Neighborhoods.Neighborhood>, sources: seq<Id>)
    requires Elements(Neighborhoods.AllMembers(ns)) == Elements(sources)
    requires forall s :: s in Neighborhoods.AllMembers(ns) <==> exists u :: u in units && s in u.sources
    ensures Elements(AllSources(units)) == Elements(sources)
  {
    forall s ensures s in Elements(AllSources(units)) <==> s in Elements(sources) {
      SourcesAreSources(units, s);
      assert s in Elements(Neighborhoods.AllMembers(ns)) <==> s in Neighborhoods.AllMembers(ns);
    }
  }

  // --- the loop over the neighbourhoods ----------------------------------------------------------------

  predicate ById(a: Neighborhoods.Neighborhood, b: Neighborhoods.Neighborhood) {
    a.id < b.id
  }

  lemma {:induction false} DistinctIsDisjoint(ns: seq<Neighborhoods.Neighborhood>)
    requires Distinct(Neighborhoods.AllMembers(ns))
    ensures Neighborhoods.Disjoint(ns)
  {
    if ns != [] {
      var init, last := ns[..|ns| - 1], ns[|ns| - 1];
      var front := Neighborhoods.AllMembers(init);
      var all := Neighborhoods.AllMembers(ns);
      assert all == front + last.members;
      forall i, j | 0 <= i < j < |front| ensures front[i] != front[j] { assert all[i] != all[j]; }
      DistinctIsDisjoint(init);
      forall i, j | 0 <= i < j < |last.members| ensures last.members[i] != last.members[j] {
        assert all[|front| + i] != all[|front| + j];
      }
      forall g, s | 0 <= g < |init| && s in ns[g].members ensures s !in last.members {
        assert ns[g] == init[g] && init[g] in init;
        Neighborhoods.MembersAreMembers(init, s);
        var i :| 0 <= i < |front| && front[i] == s;
        forall j | 0 <= j < |last.members| ensures last.members[j] != s {
          assert all[i] != all[|front| + j];
        }
      }
    }
  }

  /** Listing the neighbourhoods by id keeps them a partition. */
  lemma SortedPartition(sources: seq<Id>, ns: seq<Neighborhoods.Neighborhood>)
    requires Neighborhoods.IsPartition(sources, ns)
    ensures Neighborhoods.Disjoint(SortBy(ns, ById)) && |SortBy(ns, ById)| == |ns|
    ensures forall i, j :: 0 <= i < j < |ns| ==> SortBy(ns, ById)[i].id < SortBy(ns, ById)[j].id
    ensures Elements(Neighborhoods.AllMembers(SortBy(ns, ById))) == Elements(sources)
    ensures forall n :: n in SortBy(ns, ById) <==> n in ns
  {
    var sorted := SortBy(ns, ById);
    assert StrictWeak(ById);
    DistinctIsDisjoint(ns);
    assert Distinct(ns);
    SortDistinct(ns, ById);
    SortKeeps(ns, ById);
    forall i, j | 0 <= i < j < |sorted| ensures sorted[i].id < sorted[j].id {
      assert sorted[i] in ns && sorted[j] in ns && sorted[i] != sorted[j];
      assert !ById(sorted[j], sorted[i]);
      SameIdSameNeighborhood(ns, sorted[i], sorted[j]);
    }
    forall g | 0 <= g < |sorted| ensures Distinct(sorted[g].members) {
      assert sorted[g] in ns;
    }
    forall g, h, s | 0 <= g < h < |sorted| && s in sorted[g].members ensures s !in sorted[h].members {
      assert sorted[g] in ns && sorted[h] in ns && sorted[g] != sorted[h];
    }
    forall s ensures s in Neighborhoods.AllMembers(sorted) <==> s in Neighborhoods.AllMembers(ns) {
      Neighborhoods.MembersAreMembers(sorted, s);
      Neighborhoods.MembersAreMembers(ns, s);
    }
  }

  lemma SameIdSameNeighborhood(ns: seq<Neighborhoods.Neighborhood>, a: Neighborhoods.Neighborhood, b: Neighborhoods.Neighborhood)
    requires Neighborhoods.DistinctIds(ns) && a in ns && b in ns
    ensures a.id == b.id <==> a == b
  {
    var i :| 0 <= i < |ns| && ns[i] == a;
    var j :| 0 <= j < |ns| && ns[j] == b;
  }

  // --- what the units are, told from the shards ---------------------------------------------------------

  /** The populations of the sources that are no context, counted. */
  ghost function PopulationsAmong(populations: seq<Population>, sources: set<Id>): set<nat> {
    set i: nat | i < |populations| && !populations[i].isContext && populations[i].source.Some? && populations[i].source.value in sources
  }

  lemma {:induction false} AtCounts(populations: seq<Population>, source: Id)
    ensures |At(populations, source)| == |PopulationsAmong(populations, {source})|
  {
    var all := PopulationsAmong(populations, {source});
    if populations == [] {
      assert all == {};
    } else {
      var last := |populations| - 1;
      AtCounts(populations[..last], source);
      var before := PopulationsAmong(populations[..last], {source});
      if populations[last].source == Some(source) && !populations[last].isContext {
        assert all == before + {last};
      } else {
        assert all == before;
      }
    }
  }

  lemma {:induction false} PopulationCountIs(populations: seq<Population>, sources: seq<Id>)
    requires Distinct(sources)
    ensures PopulationCount(populations, sources) == |PopulationsAmong(populations, Elements(sources))|
  {
    if sources == [] {
      assert PopulationsAmong(populations, Elements(sources)) == {};
    } else {
      var init, last := sources[..|sources| - 1], sources[|sources| - 1];
      PopulationCountIs(populations, init);
      AtCounts(populations, last);
      assert sources == init + [last] && last !in init;
      AmongOneMore(populations, Elements(init), last);
      assert Elements(sources) == Elements(init) + {last};
    }
  }

  lemma AmongOneMore(populations: seq<Population>, sources: set<Id>, source: Id)
    requires source !in sources
    ensures |PopulationsAmong(populations, sources + {source})| == |PopulationsAmong(populations, sources)| + |PopulationsAmong(populations, {source})|
  {
    var before, more := PopulationsAmong(populations, sources), PopulationsAmong(populations, {source});
    assert before !! more;
    assert PopulationsAmong(populations, sources + {source}) == before + more;
  }

  /** Where a unit comes from: a neighbourhood and one of its shards. */
  datatype Origin = Origin(neighborhood: nat, shard: nat)

  /** The unit of a shard: its sources, its count and flag, its kind and its number among the shards. */
  ghost predicate UnitOfShard(
      populations: seq<Population>, bounds: Sharding.Bounds, ns: seq<Neighborhoods.Neighborhood>, shards: seq<seq<seq<Id>>>, u: Unit, at: Origin)
  {
    && at.neighborhood < |ns| == |shards| && at.shard < |shards[at.neighborhood]|
    && u.parent == ns[at.neighborhood].id && u.sources == shards[at.neighborhood][at.shard]
    && u.populationCount == Some(|PopulationsAmong(populations, Elements(u.sources))|)
    && u.oversized == Some(bounds.populations.Some? && |u.sources| == 1 && u.populationCount.value > bounds.populations.value)
    && u.shardCount == |shards[at.neighborhood]| && u.shardIndex == at.shard + 1
    && (u.kind == Shard <==> u.shardCount > 1) && (u.kind == Singleton <==> u.shardCount == 1 && |u.sources| == 1)
  }

  /** One unit for every shard, neighbourhood by neighbourhood and shard by shard. */
  ghost predicate UnitsOfShards(
      populations: seq<Population>, bounds: Sharding.Bounds, ns: seq<Neighborhoods.Neighborhood>, shards: seq<seq<seq<Id>>>, units: seq<Unit>, at: seq<Origin>)
  {
    && |at| == |units| && |ns| == |shards|
    && (forall x :: 0 <= x < |units| ==> UnitOfShard(populations, bounds, ns, shards, units[x], at[x]))
    && (forall x, y :: 0 <= x < y < |at| ==>
          at[x].neighborhood < at[y].neighborhood || (at[x].neighborhood == at[y].neighborhood && at[x].shard < at[y].shard))
    && (forall g: nat, k: nat :: g < |shards| && k < |shards[g]| ==> Origin(g, k) in at)
  }

  lemma UnitFromIs(
      populations: seq<Population>, bounds: Sharding.Bounds, hash: Name -> Id, ns: seq<Neighborhoods.Neighborhood>, shards: seq<seq<seq<Id>>>, at: Origin)
    requires at.neighborhood < |ns| == |shards| && at.shard < |shards[at.neighborhood]| && Distinct(shards[at.neighborhood][at.shard])
    ensures UnitOfShard(populations, bounds, ns, shards,
                        UnitFrom(populations, bounds, hash, ns[at.neighborhood].id, shards[at.neighborhood], at.shard), at)
  {
    PopulationCountIs(populations, shards[at.neighborhood][at.shard]);
  }

  ghost function BlockOrigins(g: nat, n: nat): (at: seq<Origin>)
    ensures |at| == n && forall k :: 0 <= k < n ==> at[k] == Origin(g, k)
  {
    seq(n, k requires 0 <= k < n => Origin(g, k))
  }

  lemma {:induction false} UnitsAreOfShards(
      populations: seq<Population>, bounds: Sharding.Bounds, hash: Name -> Id, ns: seq<Neighborhoods.Neighborhood>, shards: seq<seq<seq<Id>>>)
    returns (at: seq<Origin>)
    requires |shards| == |ns| && forall g, part :: 0 <= g < |shards| && part in shards[g] ==> Distinct(part)
    ensures UnitsOfShards(populations, bounds, ns, shards, UnitsOf(populations, bounds, hash, ns, shards), at)
    decreases |ns|
  {
    if ns == [] {
      return [];
    }
    var last := |ns| - 1;
    var before := UnitsAreOfShards(populations, bounds, hash, ns[..last], shards[..last]);
    at := before + BlockOrigins(last, |shards[last]|);
    BlockIsOfShards(populations, bounds, hash, ns, shards, last);
    MoreOrigins(populations, bounds, ns, shards, UnitsOf(populations, bounds, hash, ns[..last], shards[..last]), before,
                UnitsIn(populations, bounds, hash, ns[last].id, shards[last], |shards[last]|));
  }

  lemma MoreOrigins(
      populations: seq<Population>, bounds: Sharding.Bounds, ns: seq<Neighborhoods.Neighborhood>, shards: seq<seq<seq<Id>>>,
      units: seq<Unit>, before: seq<Origin>, block: seq<Unit>)
    requires ns != [] && |shards| == |ns| && |block| == |shards[|ns| - 1]|
    requires UnitsOfShards(populations, bounds, ns[..|ns| - 1], shards[..|ns| - 1], units, before)
    requires forall k: nat :: k < |block| ==> UnitOfShard(populations, bounds, ns, shards, block[k], Origin(|ns| - 1, k))
    ensures UnitsOfShards(populations, bounds, ns, shards, units + block, before + BlockOrigins(|ns| - 1, |block|))
  {
    var last := |ns| - 1;
    forall x | 0 <= x < |units| ensures UnitOfShard(populations, bounds, ns, shards, units[x], before[x]) && before[x].neighborhood < last {
      EarlierShard(populations, bounds, ns, shards, units[x], before[x]);
    }
    forall g: nat, k: nat | g < |shards| && k < |shards[g]| ensures Origin(g, k) in before + BlockOrigins(last, |block|) {
      if g == last {
        assert BlockOrigins(last, |block|)[k] == Origin(g, k);
      } else {
        assert shards[..last][g] == shards[g];
      }
    }
  }

  lemma EarlierShard(
      populations: seq<Population>, bounds: Sharding.Bounds, ns: seq<Neighborhoods.Neighborhood>, shards: seq<seq<seq<Id>>>, u: Unit, at: Origin)
    requires ns != [] && |shards| == |ns| && UnitOfShard(populations, bounds, ns[..|ns| - 1], shards[..|ns| - 1], u, at)
    ensures UnitOfShard(populations, bounds, ns, shards, u, at) && at.neighborhood < |ns| - 1
  {
  }

  lemma BlockIsOfShards(
      populations: seq<Population>, bounds: Sharding.Bounds, hash: Name -> Id, ns: seq<Neighborhoods.Neighborhood>, shards: seq<seq<seq<Id>>>, g: nat)
    requires g < |ns| == |shards| && forall part :: part in shards[g] ==> Distinct(part)
    ensures var block := UnitsIn(populations, bounds, hash, ns[g].id, shards[g], |shards[g]|);
      |block| == |shards[g]| && forall k: nat :: k < |block| ==> UnitOfShard(populations, bounds, ns, shards, block[k], Origin(g, k))
  {
    var block := UnitsIn(populations, bounds, hash, ns[g].id, shards[g], |shards[g]|);
    BlockFacts(populations, bounds, hash, ns[g].id, shards[g], |shards[g]|);
    forall k: nat | k < |block| ensures UnitOfShard(populations, bounds, ns, shards, block[k], Origin(g, k)) {
      assert shards[g][k] in shards[g];
      UnitFromIs(populations, bounds, hash, ns, shards, Origin(g, k));
    }
  }

  method BuildBlock(bySource: BySource, ghost populations: seq<Population>, bounds: Sharding.Bounds, hash: Name -> Id, n: Id, parts: seq<seq<Id>>)
    returns (units: seq<Unit>)
    requires GroupedAs(populations, bySource)
    ensures units == UnitsIn(populations, bounds, hash, n, parts, |parts|)
  {
    units := [];
    for k := 0 to |parts|
      invariant units == UnitsIn(populations, bounds, hash, n, parts, k)
    {
      var members := parts[k];
      var count := CountOf(bySource, members);
      CountIsPopulationCount(populations, bySource, members);
      var kind := if |members| == 1 && |parts| == 1 then Singleton else if |parts| > 1 then Shard else Whole;
      units := units + [Unit(hash(UnitName(n, members)), n, members, Some(count), Some(Oversized(bounds, members, count)), kind, k + 1, |parts|)];
    }
  }

  method ShardNeighborhood(bySource: BySource, ghost populations: seq<Population>, tight: seq<Neighborhoods.Affinity>, bounds: Sharding.Bounds,
                           n: Neighborhoods.Neighborhood)
    returns (parts: seq<seq<Id>>)
    requires GroupedAs(populations, bySource) && n.members != []
    ensures ShardsOf(populations, tight, bounds, n, parts)
  {
    var weights := WeightsFor(bySource, n.members);
    forall s | s in n.members ensures Get(bySource, s) == At(populations, s) {}
    assert weights == WeightsOf(populations, n.members);
    ghost var orders;
    parts, orders := Sharding.Partition(n.members, tight, bounds, weights);
    if !Sharding.FitsWhole(weights, bounds, SortedSet(Elements(n.members))) {
      assert SplitInto(weights, tight, bounds, Elements(n.members), orders, parts);
    }
  }

  method BuildUnits(bySource: BySource, ghost populations: seq<Population>, tight: seq<Neighborhoods.Affinity>, bounds: Sharding.Bounds,
                    hash: Name -> Id, ns: seq<Neighborhoods.Neighborhood>)
    returns (units: seq<Unit>, ghost shards: seq<seq<seq<Id>>>)
    requires GroupedAs(populations, bySource) && forall n :: n in ns ==> n.members != []
    ensures AllSharded(populations, tight, bounds, ns, shards)
    ensures units == UnitsOf(populations, bounds, hash, ns, shards)
    ensures exists at :: UnitsOfShards(populations, bounds, ns, shards, units, at)
  {
    units, shards := [], [];
    for g := 0 to |ns|
      invariant AllSharded(populations, tight, bounds, ns[..g], shards)
      invariant units == UnitsOf(populations, bounds, hash, ns[..g], shards)
    {
      assert ns[g] in ns;
      var parts := ShardNeighborhood(bySource, populations, tight, bounds, ns[g]);
      var block := BuildBlock(bySource, populations, bounds, hash, ns[g].id, parts);
      ShardOneMore(populations, tight, bounds, ns, shards, g, parts);
      OneMoreNeighborhood(populations, bounds, hash, ns, shards, g, parts);
      units := units + block;
      shards := shards + [parts];
    }
    assert ns[..|ns|] == ns;
    ShardsAreDistinct(populations, tight, bounds, ns, shards);
    ghost var at := UnitsAreOfShards(populations, bounds, hash, ns, shards);
  }

  lemma ShardsAreDistinct(populations: seq<Population>, tight: seq<Neighborhoods.Affinity>, bounds: Sharding.Bounds,
                          ns: seq<Neighborhoods.Neighborhood>, shards: seq<seq<seq<Id>>>)
    requires AllSharded(populations, tight, bounds, ns, shards)
    ensures forall g, part :: 0 <= g < |shards| && part in shards[g] ==> Distinct(part)
  {
    forall g, part | 0 <= g < |shards| && part in shards[g] ensures Distinct(part) {
      assert ShardsOf(populations, tight, bounds, ns[g], shards[g]);
      Sharding.AscendingIsDistinct(part);
    }
  }

  lemma ShardOneMore(populations: seq<Population>, tight: seq<Neighborhoods.Affinity>, bounds: Sharding.Bounds,
                     ns: seq<Neighborhoods.Neighborhood>, shards: seq<seq<seq<Id>>>, g: nat, parts: seq<seq<Id>>)
    requires g < |ns| && AllSharded(populations, tight, bounds, ns[..g], shards) && ShardsOf(populations, tight, bounds, ns[g], parts)
    ensures AllSharded(populations, tight, bounds, ns[..g + 1], shards + [parts])
  {
    forall h | 0 <= h < g + 1 ensures ShardsOf(populations, tight, bounds, ns[..g + 1][h], (shards + [parts])[h]) {
      assert h < g ==> ns[..g + 1][h] == ns[..g][h] && (shards + [parts])[h] == shards[h];
    }
  }

  lemma OneMoreNeighborhood(populations: seq<Population>, bounds: Sharding.Bounds, hash: Name -> Id, ns: seq<Neighborhoods.Neighborhood>,
                            shards: seq<seq<seq<Id>>>, g: nat, parts: seq<seq<Id>>)
    requires g < |ns| && |shards| == g
    ensures UnitsOf(populations, bounds, hash, ns[..g + 1], shards + [parts]) ==
            UnitsOf(populations, bounds, hash, ns[..g], shards) + UnitsIn(populations, bounds, hash, ns[g].id, parts, |parts|)
  {
    assert ns[..g + 1][..g] == ns[..g] && (shards + [parts])[..g] == shards;
  }
}
