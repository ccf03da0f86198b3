/**
 The work of every scope of an excavation plan: which correspondences a unit or a link asks
 for, and the loops that turn motifs, units and links into work items.
 */
module ScopeWork {
  import opened Wrappers
  import opened Ordering
  import opened ExcavationUnits
  import opened WorkPlan
  import opened PlanWork
  import opened PairPool
  import Links = ExcavationLinks
  import Queue = CandidateQueue

  datatype Policy = Policy(
    maximumSources: int, maximumPopulations: int, maxPairsPerUnit: int, maxPairsPerLink: int, maxFanout: int,
    minimumPriority: real, maxLinks: int)

  ghost predicate GoodPolicy(policy: Policy) {
    && policy.maximumSources >= 1 && policy.maximumPopulations >= 1 && policy.maxPairsPerUnit >= 1
    && policy.maxPairsPerLink >= 1 && policy.maxFanout >= 1 && policy.maxLinks >= 1
    && 0.0 <= policy.minimumPriority <= 1.0
  }

  // --- the pairs chosen for one scope -------------------------------------------------------------------

  /** Everything the choice of pairs depends on besides the scope. */
  datatype Evidence = Evidence(
    populations: seq<Population>, sourceOf: map<Id, Id>, contexts: set<Id>, pairs: seq<(Id, Id)>, scorer: Scorer,
    minimumPriority: real, maxFanout: int)

  function EvidenceFor(corpus: Corpus, pairs: seq<(Id, Id)>, scorer: Scorer, policy: Policy): Evidence {
    Evidence(corpus.populations, SourceMap(corpus.populations), set p | p in corpus.populations && p.isContext :: p.id, pairs, scorer,
             policy.minimumPriority, policy.maxFanout)
  }

  function PoolFor(e: Evidence, scope: set<Id>): seq<Queue.Candidate> {
    PoolOf(Queued(e.populations, scope), e.pairs, e.scorer, e.minimumPriority)
  }

  /** The pool of a scope, told from its populations. */
  lemma PoolForScope(e: Evidence, scope: set<Id>, c: Queue.Candidate) returns (xs: seq<Population>, at: seq<nat>)
    ensures KeptAt(e.populations, (p: Population) => Queueable(p, scope), xs, at)
    ensures c in PoolFor(e, scope) <==> exists l: nat, r: nat :: Nominates(xs, e.pairs, e.scorer, e.minimumPriority, l, r, c)
  {
    xs := Queued(e.populations, scope);
    at := QueuedIs(e.populations, scope);
    PoolIsNominated(xs, e.pairs, e.scorer, e.minimumPriority, c);
  }

  predicate InScope(e: Evidence, scope: set<Id>, population: Id) {
    population in e.sourceOf && e.sourceOf[population] in scope
  }

  /** Pair evidence inside the scope that names a population kept out of the queue. */
  ghost predicate Refused(e: Evidence, scope: set<Id>) {
    exists k :: 0 <= k < |e.pairs| && InScope(e, scope, e.pairs[k].0) && InScope(e, scope, e.pairs[k].1)
                && (e.pairs[k].0 in e.contexts || e.pairs[k].1 in e.contexts)
  }

  /** Work on the scope fails: it is wide enough to be queued, and its evidence is refused. */
  ghost predicate Fails(e: Evidence, scope: set<Id>) {
    !Narrow(e, scope) && Refused(e, scope)
  }

  ghost predicate Narrow(e: Evidence, scope: set<Id>) {
    |scope| < 2 || |set x | x in e.sourceOf && e.sourceOf[x] in scope| < 2
  }

  /** The scored pairs of a scope: each pair of its non-context populations at most once, across sources. */
  ghost predicate GoodPool(e: Evidence, scope: set<Id>, pool: seq<Queue.Candidate>) {
    && Queue.Pool(pool)
    && (forall c :: c in pool ==> InScope(e, scope, c.left) && InScope(e, scope, c.right))
    && (forall c :: c in pool ==> c.left !in e.contexts && c.right !in e.contexts && e.sourceOf[c.left] != e.sourceOf[c.right])
    && (forall c, d :: c in pool && d in pool && c.left == d.left && c.right == d.right ==> c == d)
  }

  ghost predicate GoodPools(e: Evidence) {
    forall scope :: GoodPool(e, scope, PoolFor(e, scope))
  }

  lemma {:induction false} MappedSource(populations: seq<Population>, p: Population)
    requires DistinctPopulations(populations) && p in populations && p.source.Some?
    ensures p.id in SourceMap(populations) && SourceMap(populations)[p.id] == p.source.value
  {
    var init, last := populations[..|populations| - 1], populations[|populations| - 1];
    assert populations == init + [last];
    if p != last {
      var i :| 0 <= i < |init| && init[i] == p;
      assert populations[i].id != populations[|populations| - 1].id;
      MappedSource(init, p);
    }
  }

  lemma QueuedPopulation(corpus: Corpus, e: Evidence, scope: set<Id>, p: Population)
    requires ValidCorpus(corpus) && e.populations == corpus.populations && e.sourceOf == SourceMap(corpus.populations)
    requires e.contexts == set q | q in corpus.populations && q.isContext :: q.id
    requires p in Queued(e.populations, scope)
    ensures InScope(e, scope, p.id) && p.id !in e.contexts && p.source == Some(e.sourceOf[p.id])
  {
    MappedSource(corpus.populations, p);
  }

  /** The pools of a valid corpus are what the queue asks for, in every scope. */
  lemma PoolsAreGood(corpus: Corpus, pairs: seq<(Id, Id)>, scorer: Scorer, policy: Policy)
    requires ValidCorpus(corpus) && NamesPairs(scorer, IdSet(corpus.populations))
    ensures GoodPools(EvidenceFor(corpus, pairs, scorer, policy))
  {
    var e := EvidenceFor(corpus, pairs, scorer, policy);
    forall scope ensures GoodPool(e, scope, PoolFor(e, scope)) {
      var xs := Queued(e.populations, scope);
      FilterKeepsIdsDistinct(e.populations, (p: Population) => !p.isContext && p.source.Some? && p.source.value in scope);
      assert IdSet(xs) <= IdSet(corpus.populations);
      PoolPairsDistinct(xs, pairs, scorer, policy.minimumPriority);
      forall c | c in PoolFor(e, scope)
        ensures InScope(e, scope, c.left) && InScope(e, scope, c.right) && c.left !in e.contexts && c.right !in e.contexts
        ensures e.sourceOf[c.left] != e.sourceOf[c.right] && c == CandidateFor(scorer, c.left, c.right)
      {
        PoolHas(xs, pairs, scorer, policy.minimumPriority, c);
        var l: nat, r: nat :| l < r < |xs| && Pairs(xs, pairs, scorer, policy.minimumPriority, (l, r)) && c == CandidateFor(scorer, xs[l].id, xs[r].id);
        QueuedPopulation(corpus, e, scope, xs[l]);
        QueuedPopulation(corpus, e, scope, xs[r]);
      }
    }
  }

  /** What is chosen for a scope: nothing from a narrow one, otherwise a maximal queue of its pool. */
  ghost predicate ChosenFor(e: Evidence, scope: set<Id>, maxPairs: int, cs: seq<Queue.Candidate>) {
    if Narrow(e, scope) then cs == []
    else
      && !Refused(e, scope)
      && Queue.Sound(SortBy(PoolFor(e, scope), Queue.CandidateBefore), cs, e.maxFanout)
      && Queue.Bounded(cs, e.maxFanout) && |cs| <= maxPairs && Queue.BestOfStratum(PoolFor(e, scope), cs, e.maxFanout)
      && (|cs| < maxPairs ==> Queue.Maximal(PoolFor(e, scope), cs, e.maxFanout))
  }

  method ScopedCandidates(e: Evidence, scope: set<Id>, maxPairs: int) returns (r: Option<seq<Queue.Candidate>>)
    requires GoodPools(e) && maxPairs >= 1
    ensures r.None? <==> Fails(e, scope)
    ensures r.Some? ==> ChosenFor(e, scope, maxPairs, r.value)
  {
    if |scope| < 2 {
      return Some([]);
    }
    var populations := set x | x in e.sourceOf && e.sourceOf[x] in scope;
    if |populations| < 2 {
      return Some([]);
    }
    for k := 0 to |e.pairs|
      invariant forall j :: 0 <= j < k && InScope(e, scope, e.pairs[j].0) && InScope(e, scope, e.pairs[j].1) ==>
        e.pairs[j].0 !in e.contexts && e.pairs[j].1 !in e.contexts
    {
      var (left, right) := e.pairs[k];
      if left in populations && right in populations && (left in e.contexts || right in e.contexts) {
        return None;
      }
    }
    assert GoodPool(e, scope, PoolFor(e, scope));
    var pool := BuildPool(Queued(e.populations, scope), e.pairs, e.scorer, e.minimumPriority);
    var chosen, _ := Queue.Build(pool, maxPairs, e.maxFanout);
    return Some(chosen);
  }

  lemma ChosenAreDistinct(e: Evidence, scope: set<Id>, maxPairs: int, cs: seq<Queue.Candidate>)
    requires GoodPools(e) && ChosenFor(e, scope, maxPairs, cs)
    ensures PairsDistinct(cs)
    ensures forall c :: c in cs ==> InScope(e, scope, c.left) && InScope(e, scope, c.right) && e.sourceOf[c.left] != e.sourceOf[c.right]
  {
    if cs != [] {
      var pool := PoolFor(e, scope);
      assert GoodPool(e, scope, pool);
      Queue.SortedPool(pool);
      forall i, j | 0 <= i < j < |cs| ensures cs[i].left != cs[j].left || cs[i].right != cs[j].right {
        assert cs[i] in cs && cs[j] in cs && cs[i] != cs[j];
      }
    }
  }

  // --- motif work ---------------------------------------------------------------------------------------

  predicate MotifsSourced(motifs: seq<Motif>) {
    forall m :: m in motifs ==> m.source.Some?
  }

  ghost predicate MotifsFiled(motifs: seq<Motif>, unitOf: map<Id, Id>, hash: Name -> Id, filed: BySource) {
    forall s :: s in unitOf ==> Get(filed, s) == MotifIds(motifs, hash, s)
  }

  lemma FileMotif(motifs: seq<Motif>, k: nat, unitOf: map<Id, Id>, hash: Name -> Id, filed: BySource)
    requires k < |motifs| && motifs[k].source.Some? && MotifsFiled(motifs[..k], unitOf, hash, filed)
    ensures var m := motifs[k];
      MotifsFiled(motifs[..k + 1], unitOf, hash,
                  if Mapped(unitOf, m) then filed[m.source.value := Get(filed, m.source.value) + [hash(MotifName(m.id))]] else filed)
  {
    var m, more := motifs[k], motifs[..k + 1];
    assert more[..k] == motifs[..k] && more[k] == m;
    var now := if Mapped(unitOf, m) then filed[m.source.value := Get(filed, m.source.value) + [hash(MotifName(m.id))]] else filed;
    forall s | s in unitOf ensures Get(now, s) == MotifIds(more, hash, s) {
      assert Get(filed, s) == MotifIds(motifs[..k], hash, s);
    }
  }

  lemma MotifTasksMore(motifs: seq<Motif>, k: nat, unitOf: map<Id, Id>)
    requires k < |motifs|
    ensures MotifTasks(motifs[..k + 1], unitOf) ==
            MotifTasks(motifs[..k], unitOf) + (if Mapped(unitOf, motifs[k]) then [MotifTask(motifs[k])] else [])
  {
    assert motifs[..k + 1][..k] == motifs[..k];
  }

  lemma MotifItemsMore(corpus: Corpus, motifs: seq<Motif>, k: nat, unitOf: map<Id, Id>, hash: Name -> Id)
    requires k < |motifs|
    ensures Items(corpus, hash, MotifTasks(motifs[..k + 1], unitOf)) ==
            Items(corpus, hash, MotifTasks(motifs[..k], unitOf)) + (if Mapped(unitOf, motifs[k]) then [MotifItem(hash, motifs[k])] else [])
  {
    MotifTasksMore(motifs, k, unitOf);
  }

  method MotifWork(ghost corpus: Corpus, motifs: seq<Motif>, unitOf: map<Id, Id>, hash: Name -> Id)
    returns (ok: bool, items: seq<WorkItem>, filed: BySource)
    ensures ok <==> MotifsSourced(motifs)
    ensures ok ==> items == Items(corpus, hash, MotifTasks(motifs, unitOf)) && MotifsFiled(motifs, unitOf, hash, filed)
  {
    items, filed := [], map[];
    for k := 0 to |motifs|
      invariant MotifsSourced(motifs[..k])
      invariant items == Items(corpus, hash, MotifTasks(motifs[..k], unitOf))
      invariant MotifsFiled(motifs[..k], unitOf, hash, filed)
    {
      var m := motifs[k];
      assert m in motifs;
      if m.source.None? {
        return false, items, filed;
      }
      assert motifs[..k + 1] == motifs[..k] + [m];
      FileMotif(motifs, k, unitOf, hash, filed);
      MotifItemsMore(corpus, motifs, k, unitOf, hash);
      if m.source.value in unitOf {
        var population := if m.population.Some? then [m.population.value] else [];
        var w := WorkItem(hash(MotifName(m.id)), SourceMotifs, 1, m.source.value, [m.source.value], population, []);
        assert w == MotifItem(hash, m);
        items := items + [w];
        filed := filed[m.source.value := Get(filed, m.source.value) + [w.id]];
      }
    }
    assert motifs[..|motifs|] == motifs;
    ok := true;
  }

  // --- the work of one scope ------------------------------------------------------------------------------

  method CorrespondenceWork(ghost corpus: Corpus, sourceOf: map<Id, Id>, hash: Name -> Id, scope: Id, cs: seq<Queue.Candidate>)
    returns (items: seq<WorkItem>, ids: seq<Id>)
    requires sourceOf == SourceMap(corpus.populations)
    ensures items == Items(corpus, hash, ScopeTasks(scope, cs)) && ids == EvidenceIds(hash, scope, cs)
  {
    items, ids := [], [];
    for k := 0 to |cs|
      invariant |items| == k && |ids| == k
      invariant forall i :: 0 <= i < k ==> items[i] == EvidenceItem(hash, sourceOf, scope, cs[i]) && ids[i] == items[i].id
    {
      var w := PairWork(sourceOf, hash, scope, cs[k]);
      items := items + [w];
      ids := ids + [w.id];
    }
  }

  method PairWork(sourceOf: map<Id, Id>, hash: Name -> Id, scope: Id, c: Queue.Candidate) returns (w: WorkItem)
    ensures w == EvidenceItem(hash, sourceOf, scope, c)
  {
    var populations := if c.right < c.left then [c.right, c.left] else [c.left, c.right];
    ListedPair(c.left, c.right);
    w := WorkItem(hash(CorrespondenceName(scope, c.left, c.right)), Correspondence, 2, scope,
                  SortedSet({SourceFor(sourceOf, c.left), SourceFor(sourceOf, c.right)}), populations, []);
  }

  function Gather(filed: BySource, sources: seq<Id>): seq<Id> {
    if sources == [] then [] else Gather(filed, sources[..|sources| - 1]) + Get(filed, sources[|sources| - 1])
  }

  lemma {:induction false} GatherPopulations(populations: seq<Population>, bySource: BySource, sources: seq<Id>)
    requires GroupedAs(populations, bySource)
    ensures Gather(bySource, sources) == PopulationsIn(populations, sources)
  {
    if sources != [] {
      GatherPopulations(populations, bySource, sources[..|sources| - 1]);
      assert Get(bySource, sources[|sources| - 1]) == At(populations, sources[|sources| - 1]);
    }
  }

  lemma {:induction false} GatherMotifs(motifs: seq<Motif>, unitOf: map<Id, Id>, hash: Name -> Id, filed: BySource, sources: seq<Id>)
    requires MotifsFiled(motifs, unitOf, hash, filed) && forall s :: s in sources ==> s in unitOf
    ensures Gather(filed, sources) == MotifIdsOf(motifs, hash, sources)
  {
    if sources != [] {
      GatherMotifs(motifs, unitOf, hash, filed, sources[..|sources| - 1]);
      assert sources[|sources| - 1] in sources;
    }
  }

  method UnitWork(ghost corpus: Corpus, ghost unitOf: map<Id, Id>, sourceOf: map<Id, Id>, bySource: BySource, filed: BySource,
                  hash: Name -> Id, u: Unit, cs: seq<Queue.Candidate>)
    returns (items: seq<WorkItem>, synthesis: Id)
    requires sourceOf == SourceMap(corpus.populations) && GroupedAs(corpus.populations, bySource)
    requires MotifsFiled(corpus.motifs, unitOf, hash, filed) && forall s :: s in u.sources ==> s in unitOf
    ensures items == Items(corpus, hash, UnitBlock(u, cs)) && synthesis == hash(SynthesisName(u.id))
  {
    var ids;
    items, ids := CorrespondenceWork(corpus, sourceOf, hash, u.id, cs);
    GatherPopulations(corpus.populations, bySource, u.sources);
    GatherMotifs(corpus.motifs, unitOf, hash, filed, u.sources);
    synthesis := hash(SynthesisName(u.id));
    var w := WorkItem(synthesis, NeighborhoodSynthesis, 3, u.id, SortedSet(Elements(u.sources)), Listed(Gather(bySource, u.sources)),
                      Listed(ids + Gather(filed, u.sources)));
    assert w == SynthesisItem(corpus, hash, u, cs);
    items := items + [w];
  }

  method LinkWork(ghost corpus: Corpus, sourceOf: map<Id, Id>, synthesisOf: map<Id, Id>, hash: Name -> Id, l: Links.Link, cs: seq<Queue.Candidate>)
    returns (items: seq<WorkItem>)
    requires sourceOf == SourceMap(corpus.populations)
    requires l.leftUnit in synthesisOf && synthesisOf[l.leftUnit] == hash(SynthesisName(l.leftUnit))
    requires l.rightUnit in synthesisOf && synthesisOf[l.rightUnit] == hash(SynthesisName(l.rightUnit))
    ensures items == Items(corpus, hash, LinkBlock(l, cs))
  {
    var ids;
    items, ids := CorrespondenceWork(corpus, sourceOf, hash, l.id, cs);
    var w := WorkItem(hash(BridgeName(l.id)), BridgeSynthesis, 4, l.id, SortedSet({l.edge.left, l.edge.right}), SortedSet(Touched(cs)),
                      Listed([synthesisOf[l.leftUnit], synthesisOf[l.rightUnit]] + ids));
    assert w == BridgeItem(hash, l, cs);
    items := items + [w];
  }

  // --- the work of all scopes -----------------------------------------------------------------------------

  ghost predicate UnitsChosen(e: Evidence, units: seq<Unit>, maxPairs: int, chosen: seq<seq<Queue.Candidate>>) {
    |chosen| == |units| && forall g :: 0 <= g < |units| ==> ChosenFor(e, Elements(units[g].sources), maxPairs, chosen[g])
  }

  ghost predicate LinksChosen(e: Evidence, links: seq<Links.Link>, maxPairs: int, chosen: seq<seq<Queue.Candidate>>) {
    |chosen| == |links| && forall k :: 0 <= k < |links| ==> ChosenFor(e, {links[k].edge.left, links[k].edge.right}, maxPairs, chosen[k])
  }

  ghost predicate Synthesised(units: seq<Unit>, hash: Name -> Id, synthesisOf: map<Id, Id>) {
    forall u :: u in units ==> u.id in synthesisOf && synthesisOf[u.id] == hash(SynthesisName(u.id))
  }

  ghost predicate UnitFails(e: Evidence, units: seq<Unit>) {
    exists u :: u in units && Fails(e, Elements(u.sources))
  }

  ghost predicate LinkFails(e: Evidence, links: seq<Links.Link>) {
    exists l :: l in links && Fails(e, {l.edge.left, l.edge.right})
  }

  lemma ChosenUnitsDoNotFail(e: Evidence, units: seq<Unit>, maxPairs: int, chosen: seq<seq<Queue.Candidate>>)
    requires UnitsChosen(e, units, maxPairs, chosen)
    ensures !UnitFails(e, units)
  {
    forall u | u in units ensures !Fails(e, Elements(u.sources)) {
      var g :| 0 <= g < |units| && units[g] == u;
      assert ChosenFor(e, Elements(units[g].sources), maxPairs, chosen[g]);
    }
  }

  lemma ChosenLinksDoNotFail(e: Evidence, links: seq<Links.Link>, maxPairs: int, chosen: seq<seq<Queue.Candidate>>)
    requires LinksChosen(e, links, maxPairs, chosen)
    ensures !LinkFails(e, links)
  {
    forall l | l in links ensures !Fails(e, {l.edge.left, l.edge.right}) {
      var k :| 0 <= k < |links| && links[k] == l;
      assert ChosenFor(e, {links[k].edge.left, links[k].edge.right}, maxPairs, chosen[k]);
    }
  }

  lemma UnitTasksMore(units: seq<Unit>, g: nat, chosen: seq<seq<Queue.Candidate>>, cs: seq<Queue.Candidate>)
    requires g < |units| && |chosen| == g
    ensures UnitTasks(units[..g + 1], chosen + [cs]) == UnitTasks(units[..g], chosen) + UnitBlock(units[g], cs)
  {
    var blocks := UnitBlocks(units[..g + 1], chosen + [cs]);
    assert blocks[..g] == UnitBlocks(units[..g], chosen) && blocks[g] == UnitBlock(units[g], cs);
  }

  lemma LinkTasksMore(links: seq<Links.Link>, k: nat, chosen: seq<seq<Queue.Candidate>>, cs: seq<Queue.Candidate>)
    requires k < |links| && |chosen| == k
    ensures LinkTasks(links[..k + 1], chosen + [cs]) == LinkTasks(links[..k], chosen) + LinkBlock(links[k], cs)
  {
    var blocks := LinkBlocks(links[..k + 1], chosen + [cs]);
    assert blocks[..k] == LinkBlocks(links[..k], chosen) && blocks[k] == LinkBlock(links[k], cs);
  }

  lemma ItemsConcat(corpus: Corpus, hash: Name -> Id, a: seq<Task>, b: seq<Task>)
    ensures Items(corpus, hash, a + b) == Items(corpus, hash, a) + Items(corpus, hash, b)
  {
    EachConcat(t => ItemOf(corpus, hash, t), a, b);
  }

  lemma UnitDone(corpus: Corpus, e: Evidence, hash: Name -> Id, units: seq<Unit>, g: nat, maxPairs: int, chosen: seq<seq<Queue.Candidate>>,
                 cs: seq<Queue.Candidate>, synthesisOf: map<Id, Id>)
    requires g < |units| && UnitsChosen(e, units[..g], maxPairs, chosen) && ChosenFor(e, Elements(units[g].sources), maxPairs, cs)
    requires Synthesised(units[..g], hash, synthesisOf)
    ensures UnitsChosen(e, units[..g + 1], maxPairs, chosen + [cs])
    ensures Synthesised(units[..g + 1], hash, synthesisOf[units[g].id := hash(SynthesisName(units[g].id))])
    ensures Items(corpus, hash, UnitTasks(units[..g + 1], chosen + [cs])) ==
            Items(corpus, hash, UnitTasks(units[..g], chosen)) + Items(corpus, hash, UnitBlock(units[g], cs))
  {
    UnitTasksMore(units, g, chosen, cs);
    ItemsConcat(corpus, hash, UnitTasks(units[..g], chosen), UnitBlock(units[g], cs));
    assert units[..g + 1] == units[..g] + [units[g]];
  }

  method AllUnitWork(ghost corpus: Corpus, ghost unitOf: map<Id, Id>, e: Evidence, bySource: BySource, filed: BySource,
                     hash: Name -> Id, units: seq<Unit>, maxPairs: int)
    returns (ok: bool, items: seq<WorkItem>, synthesisOf: map<Id, Id>, ghost chosen: seq<seq<Queue.Candidate>>)
    requires e.sourceOf == SourceMap(corpus.populations) && GroupedAs(corpus.populations, bySource) && GoodPools(e) && maxPairs >= 1
    requires MotifsFiled(corpus.motifs, unitOf, hash, filed) && forall u, s :: u in units && s in u.sources ==> s in unitOf
    ensures ok ==> UnitsChosen(e, units, maxPairs, chosen) && items == Items(corpus, hash, UnitTasks(units, chosen))
    ensures ok ==> Synthesised(units, hash, synthesisOf)
    ensures ok <==> !UnitFails(e, units)
  {
    items, synthesisOf, chosen := [], map[], [];
    for g := 0 to |units|
      invariant UnitsChosen(e, units[..g], maxPairs, chosen)
      invariant items == Items(corpus, hash, UnitTasks(units[..g], chosen))
      invariant Synthesised(units[..g], hash, synthesisOf)
    {
      var u := units[g];
      assert u in units;
      var cs := ScopedCandidates(e, Elements(u.sources), maxPairs);
      if cs.None? {
        return false, items, synthesisOf, chosen;
      }
      var work, synthesis := UnitWork(corpus, unitOf, e.sourceOf, bySource, filed, hash, u, cs.value);
      UnitDone(corpus, e, hash, units, g, maxPairs, chosen, cs.value, synthesisOf);
      items := items + work;
      synthesisOf := synthesisOf[u.id := synthesis];
      chosen := chosen + [cs.value];
    }
    assert units[..|units|] == units;
    ChosenUnitsDoNotFail(e, units, maxPairs, chosen);
    ok := true;
  }

  lemma LinkUnitsSynthesised(units: seq<Unit>, hash: Name -> Id, synthesisOf: map<Id, Id>, l: Links.Link)
    requires Synthesised(units, hash, synthesisOf) && UnitIdsDistinct(units) && Links.EndpointsAgree(SourcesOf(units), l)
    ensures l.leftUnit in synthesisOf && synthesisOf[l.leftUnit] == hash(SynthesisName(l.leftUnit))
    ensures l.rightUnit in synthesisOf && synthesisOf[l.rightUnit] == hash(SynthesisName(l.rightUnit))
  {
    Links.SourcesOfUnit(units);
  }

  method AllLinkWork(ghost corpus: Corpus, e: Evidence, synthesisOf: map<Id, Id>, hash: Name -> Id, links: seq<Links.Link>, maxPairs: int,
                     ghost units: seq<Unit>)
    returns (ok: bool, items: seq<WorkItem>, ghost chosen: seq<seq<Queue.Candidate>>)
    requires e.sourceOf == SourceMap(corpus.populations) && GoodPools(e) && maxPairs >= 1
    requires Synthesised(units, hash, synthesisOf) && UnitIdsDistinct(units) && Links.ValidLinks(units, links)
    ensures ok ==> LinksChosen(e, links, maxPairs, chosen) && items == Items(corpus, hash, LinkTasks(links, chosen))
    ensures ok <==> !LinkFails(e, links)
  {
    items, chosen := [], [];
    for k := 0 to |links|
      invariant LinksChosen(e, links[..k], maxPairs, chosen)
      invariant items == Items(corpus, hash, LinkTasks(links[..k], chosen))
    {
      var l := links[k];
      assert l in links;
      LinkUnitsSynthesised(units, hash, synthesisOf, l);
      var cs := ScopedCandidates(e, {l.edge.left, l.edge.right}, maxPairs);
      if cs.None? {
        return false, items, chosen;
      }
      var work := LinkWork(corpus, e.sourceOf, synthesisOf, hash, l, cs.value);
      LinkTasksMore(links, k, chosen, cs.value);
      ItemsConcat(corpus, hash, LinkTasks(links[..k], chosen), LinkBlock(l, cs.value));
      assert links[..k + 1] == links[..k] + [l];
      items := items + work;
      chosen := chosen + [cs.value];
    }
    assert links[..|links|] == links;
    ChosenLinksDoNotFail(e, links, maxPairs, chosen);
    ok := true;
  }
}
