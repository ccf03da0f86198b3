/**
 The excavation plan: building units, links and work from a corpus and its source
 neighbourhoods, the validator the builder ends with, and why that validator never refuses.
 */
module ExcavationPlan {
  import opened Wrappers
  import opened Ordering
  import opened ExcavationUnits
  import opened WorkPlan
  import opened PlanWork
  import opened PlanNeeds
  import opened ScopeWork
  import opened PairPool
  import Links = ExcavationLinks
  import Neighborhoods
  import Sharding
  import Queue = CandidateQueue
  import SelectWork

  datatype Plan = Plan(bounds: Sharding.Bounds, units: seq<Unit>, links: seq<Links.Link>, work: seq<WorkItem>)

  datatype PlanError =
    | InvalidCorpus | InvalidNeighborhoods | BadParameter | MissingSource | EvidenceNamesContext
    | BadPolicy | UnitRefused | LinkRefused | WorkRefused

  // --- the validator --------------------------------------------------------------------------------

  ghost predicate ValidPlan(corpus: Corpus, p: Neighborhoods.Proposal, plan: Plan) {
    && plan.bounds.sources >= 1 && (plan.bounds.populations.Some? ==> plan.bounds.populations.value >= 1)
    && AllCountable(corpus.populations)
    && ValidUnits(corpus.populations, plan.bounds, Elements(p.sources), plan.units)
    && Links.ValidLinks(plan.units, plan.links)
    && ValidWork(plan.work)
  }

  method Validate(corpus: Corpus, p: Neighborhoods.Proposal, plan: Plan) returns (r: Option<PlanError>)
    ensures r.None? <==> ValidCorpus(corpus) && Neighborhoods.ValidProposal(Available(corpus), p) && ValidPlan(corpus, p, plan)
  {
    var valid := ValidateCorpus(corpus);
    if !valid {
      return Some(InvalidCorpus);
    }
    var available := CorpusSources(corpus);
    var proposal := Neighborhoods.Validate(available, p);
    if proposal.Some? {
      return Some(InvalidNeighborhoods);
    }
    if plan.bounds.sources < 1 || (plan.bounds.populations.Some? && plan.bounds.populations.value < 1) {
      return Some(BadPolicy);
    }
    var countable, bySource := CountPopulations(corpus.populations);
    if !countable {
      return Some(MissingSource);
    }
    var units, ids, sourcesOf := ValidateUnits(bySource, corpus.populations, plan.bounds, Elements(p.sources), plan.units);
    if units.Some? {
      return Some(UnitRefused);
    }
    Links.SourcesOfUnit(plan.units);
    var links := Links.ValidateLinks(ids, sourcesOf, plan.units, plan.links);
    if links.Some? {
      return Some(LinkRefused);
    }
    var work := ValidateWork(plan.work);
    return if work.Some? then Some(WorkRefused) else None;
  }


  // --- the builder ------------------------------------------------------------------------------------------

  /** What is chosen along the way: the shards of every neighbourhood and the pairs of every scope. */
  datatype Choices = Choices(
    shards: seq<seq<seq<Id>>>, forUnits: seq<seq<Queue.Candidate>>, forLinks: seq<seq<Queue.Candidate>>)

  function BoundsOf(policy: Policy): Sharding.Bounds {
    Sharding.Bounds(policy.maximumSources, Some(policy.maximumPopulations))
  }

  /** The units and links of a plan, which depend on the corpus and its neighbourhoods alone. */
  ghost predicate StructureOf(
      corpus: Corpus, p: Neighborhoods.Proposal, policy: Policy, hash: Name -> Id, shards: seq<seq<seq<Id>>>, units: seq<Unit>, links: seq<Links.Link>)
  {
    var ns := SortBy(p.neighborhoods, ById);
    && AllSharded(corpus.populations, p.tight, BoundsOf(policy), ns, shards)
    && units == UnitsOf(corpus.populations, BoundsOf(policy), hash, ns, shards)
    && Links.LinksOf(Links.UnitMap(units), hash, Links.AllNominations(p, policy.maxLinks), links)
  }

  ghost predicate PlanOf(corpus: Corpus, p: Neighborhoods.Proposal, e: Evidence, policy: Policy, hash: Name -> Id, plan: Plan, made: Choices) {
    && plan.bounds == BoundsOf(policy)
    && StructureOf(corpus, p, policy, hash, made.shards, plan.units, plan.links)
    && UnitsChosen(e, plan.units, policy.maxPairsPerUnit, made.forUnits)
    && LinksChosen(e, plan.links, policy.maxPairsPerLink, made.forLinks)
    && plan.work == SortBy(Items(corpus, hash, Tasks(corpus, plan.units, plan.links, made.forUnits, made.forLinks)), WorkBefore)
  }

  /** What the builder was given, once it has passed the checks made before any unit is built. */
  ghost predicate Admitted(corpus: Corpus, p: Neighborhoods.Proposal, policy: Policy) {
    && ValidCorpus(corpus) && Neighborhoods.ValidProposal(Available(corpus), p) && GoodPolicy(policy) && AllSourced(corpus.populations)
  }

  lemma UnitsOfPlan(corpus: Corpus, p: Neighborhoods.Proposal, policy: Policy, hash: Name -> Id, shards: seq<seq<seq<Id>>>)
    requires Admitted(corpus, p, policy) && Injective(hash)
    requires AllSharded(corpus.populations, p.tight, BoundsOf(policy), SortBy(p.neighborhoods, ById), shards)
    ensures var units := UnitsOf(corpus.populations, BoundsOf(policy), hash, SortBy(p.neighborhoods, ById), shards);
      && ValidUnits(corpus.populations, BoundsOf(policy), Elements(p.sources), units) && Apart(units)
      && Links.UnitMap(units).Keys == Elements(p.sources)
  {
    var ns := SortBy(p.neighborhoods, ById);
    SortedPartition(p.sources, p.neighborhoods);
    UnitsAreValid(corpus.populations, p.tight, BoundsOf(policy), hash, p.sources, ns, shards);
    Links.MappedSources(UnitsOf(corpus.populations, BoundsOf(policy), hash, ns, shards));
  }

  lemma EndpointsMapped(p: Neighborhoods.Proposal, unitOf: map<Id, Id>, available: set<Id>)
    requires Neighborhoods.ValidProposal(available, p) && unitOf.Keys == Elements(p.sources)
    ensures forall e :: e in p.tight ==> e.left in unitOf && e.right in unitOf
    ensures forall b :: b in p.bridges ==> b.edge.left in unitOf && b.edge.right in unitOf
  {
    forall s | s in p.sources ensures s in unitOf {
      assert s in Elements(p.sources);
    }
    forall b | b in p.bridges ensures b.edge.left in p.sources && b.edge.right in p.sources {
      assert Neighborhoods.BridgeAgrees(p, b);
    }
  }

  lemma LinkIdIsHashed(unitOf: map<Id, Id>, hash: Name -> Id, noms: seq<Links.Nomination>, links: seq<Links.Link>, l: Links.Link)
    requires Links.LinksOf(unitOf, hash, noms, links) && l in links
    ensures l.id == hash(LinkName(l.kind, l.leftUnit, l.rightUnit))
  {
    var best :| Links.StrongestLinks(unitOf, hash, noms, best) && forall m :: m in links <==> exists key :: key in best && best[key] == m;
    var key :| key in best && best[key] == l;
    assert Links.LinkFor(unitOf, hash, noms, key, l);
  }

  lemma UnitIdIsHashed(corpus: Corpus, p: Neighborhoods.Proposal, policy: Policy, hash: Name -> Id, shards: seq<seq<seq<Id>>>, u: Unit)
    requires |shards| == |SortBy(p.neighborhoods, ById)|
    requires u in UnitsOf(corpus.populations, BoundsOf(policy), hash, SortBy(p.neighborhoods, ById), shards)
    ensures u.id == hash(UnitName(u.parent, u.sources))
  {
    var g, k := UnitOrigin(corpus.populations, BoundsOf(policy), hash, SortBy(p.neighborhoods, ById), shards, u);
  }

  lemma UnitsAndLinksDiffer(corpus: Corpus, p: Neighborhoods.Proposal, e: Evidence, policy: Policy, hash: Name -> Id, plan: Plan, made: Choices)
    requires PlanOf(corpus, p, e, policy, hash, plan, made) && Injective(hash)
    ensures forall u, l :: u in plan.units && l in plan.links ==> u.id != l.id
  {
    forall u, l | u in plan.units && l in plan.links ensures u.id != l.id {
      UnitIdIsHashed(corpus, p, policy, hash, made.shards, u);
      LinkIdIsHashed(Links.UnitMap(plan.units), hash, Links.AllNominations(p, policy.maxLinks), plan.links, l);
    }
  }

  /** No two tasks of a plan share a name. */
  lemma TasksAreDistinct(corpus: Corpus, p: Neighborhoods.Proposal, e: Evidence, policy: Policy, hash: Name -> Id, plan: Plan, made: Choices)
    requires Admitted(corpus, p, policy) && PlanOf(corpus, p, e, policy, hash, plan, made) && Injective(hash) && GoodPools(e)
    ensures NamesDistinct(Tasks(corpus, plan.units, plan.links, made.forUnits, made.forLinks))
  {
    UnitsOfPlan(corpus, p, policy, hash, made.shards);
    UnitsAndLinksDiffer(corpus, p, e, policy, hash, plan, made);
    forall g | 0 <= g < |plan.units| ensures PairsDistinct(made.forUnits[g]) {
      ChosenAreDistinct(e, Elements(plan.units[g].sources), policy.maxPairsPerUnit, made.forUnits[g]);
    }
    forall k | 0 <= k < |plan.links| ensures PairsDistinct(made.forLinks[k]) {
      ChosenAreDistinct(e, {plan.links[k].edge.left, plan.links[k].edge.right}, policy.maxPairsPerLink, made.forLinks[k]);
    }
    MotifTasksDistinct(corpus.motifs, Links.UnitMap(plan.units));
    UnitTasksDistinct(plan.units, made.forUnits);
    LinkTasksDistinct(plan.links, made.forLinks);
    var motifs, units, links := MotifTasks(corpus.motifs, Links.UnitMap(plan.units)), UnitTasks(plan.units, made.forUnits), LinkTasks(plan.links, made.forLinks);
    forall x, y | x in units && y in links ensures ScopeOf(x) != ScopeOf(y) {
      var u :| u in plan.units && ScopeOf(x) == Some(u.id);
      var l :| l in plan.links && ScopeOf(y) == Some(l.id);
    }
    NamesConcat(motifs, units);
    NamesConcat(motifs + units, links);
  }

  lemma UnitTaskSupported(corpus: Corpus, plan: Plan, made: Choices, t: Task)
    requires |made.forUnits| == |plan.units| && |made.forLinks| == |plan.links|
    requires Apart(plan.units) && t in UnitTasks(plan.units, made.forUnits)
    ensures Supported(corpus, Tasks(corpus, plan.units, plan.links, made.forUnits, made.forLinks), t)
  {
    var tasks := Tasks(corpus, plan.units, plan.links, made.forUnits, made.forLinks);
    UnitTasksHave(plan.units, made.forUnits, t);
    var g :| 0 <= g < |plan.units| && t in UnitBlock(plan.units[g], made.forUnits[g]);
    var u, cs := plan.units[g], made.forUnits[g];
    if t.SynthesisTask? {
      forall c | c in cs ensures EvidenceTask(u.id, c) in tasks {
        InBlock(u.id, cs, c);
        UnitTasksHave(plan.units, made.forUnits, EvidenceTask(u.id, c));
        assert EvidenceTask(u.id, c) in UnitBlock(u, cs);
      }
      forall m | m in corpus.motifs && m.source.Some? && m.source.value in u.sources ensures MotifTask(m) in tasks {
        Links.UnitOfSource(plan.units, g, m.source.value);
      }
    }
  }

  lemma InBlock(scope: Id, cs: seq<Queue.Candidate>, c: Queue.Candidate)
    requires c in cs
    ensures EvidenceTask(scope, c) in ScopeTasks(scope, cs)
  {
    var i :| 0 <= i < |cs| && cs[i] == c;
    assert ScopeTasks(scope, cs)[i] == EvidenceTask(scope, c);
  }

  lemma SynthesisTaskOf(units: seq<Unit>, chosen: seq<seq<Queue.Candidate>>, id: Id) returns (t: Task)
    requires |chosen| == |units| && UnitIdsDistinct(units) && id in SourcesOf(units)
    ensures t in UnitTasks(units, chosen) && t.SynthesisTask? && t.unit.id == id
  {
    Links.SourcesOfUnit(units);
    var u :| u in units && u.id == id;
    var g :| 0 <= g < |units| && units[g] == u;
    t := SynthesisTask(u, chosen[g]);
    UnitTasksHave(units, chosen, t);
    assert t in UnitBlock(units[g], chosen[g]);
  }

  lemma LinkTaskSupported(corpus: Corpus, plan: Plan, made: Choices, t: Task)
    requires |made.forUnits| == |plan.units| && |made.forLinks| == |plan.links|
    requires UnitIdsDistinct(plan.units) && Links.ValidLinks(plan.units, plan.links) && t in LinkTasks(plan.links, made.forLinks)
    ensures Supported(corpus, Tasks(corpus, plan.units, plan.links, made.forUnits, made.forLinks), t)
  {
    var tasks := Tasks(corpus, plan.units, plan.links, made.forUnits, made.forLinks);
    LinkTasksHave(plan.links, made.forLinks, t);
    var k :| 0 <= k < |plan.links| && t in LinkBlock(plan.links[k], made.forLinks[k]);
    var l, cs := plan.links[k], made.forLinks[k];
    assert l in plan.links;
    if t.BridgeTask? {
      forall c | c in cs ensures EvidenceTask(l.id, c) in tasks {
        InBlock(l.id, cs, c);
        LinkTasksHave(plan.links, made.forLinks, EvidenceTask(l.id, c));
        assert EvidenceTask(l.id, c) in LinkBlock(l, cs);
      }
      var left := SynthesisTaskOf(plan.units, made.forUnits, l.leftUnit);
      var right := SynthesisTaskOf(plan.units, made.forUnits, l.rightUnit);
      assert left in tasks && right in tasks;
    }
  }

  /** The planner satisfies its own validator. */
  lemma PlanIsValid(corpus: Corpus, p: Neighborhoods.Proposal, e: Evidence, policy: Policy, hash: Name -> Id, plan: Plan, made: Choices)
    requires Admitted(corpus, p, policy) && PlanOf(corpus, p, e, policy, hash, plan, made) && Injective(hash) && GoodPools(e)
    ensures ValidPlan(corpus, p, plan) && WorkListed(plan.work)
  {
    var tasks := Tasks(corpus, plan.units, plan.links, made.forUnits, made.forLinks);
    UnitsOfPlan(corpus, p, policy, hash, made.shards);
    Links.LinksAreValid(plan.units, hash, Links.AllNominations(p, policy.maxLinks), plan.links);
    TasksAreDistinct(corpus, p, e, policy, hash, plan, made);
    forall t | t in tasks ensures Supported(corpus, tasks, t) {
      if t in UnitTasks(plan.units, made.forUnits) {
        UnitTaskSupported(corpus, plan, made, t);
      } else if t in LinkTasks(plan.links, made.forLinks) {
        LinkTaskSupported(corpus, plan, made, t);
      }
    }
    var first := plan.units[0];
    var some := SynthesisTask(first, made.forUnits[0]);
    UnitTasksHave(plan.units, made.forUnits, some);
    assert some in UnitBlock(first, made.forUnits[0]);
    assert some in tasks;
    PlannedWorkIsValid(corpus, hash, tasks);
    ReorderedWorkIsValid(Items(corpus, hash, tasks));
  }

  lemma ChosenAreKnown(corpus: Corpus, e: Evidence, scope: set<Id>, maxPairs: int, cs: seq<Queue.Candidate>)
    requires GoodPools(e) && ChosenFor(e, scope, maxPairs, cs) && e.sourceOf == SourceMap(corpus.populations)
    ensures forall c :: c in cs ==> c.left in SourceMap(corpus.populations) && c.right in SourceMap(corpus.populations)
  {
    ChosenAreDistinct(e, scope, maxPairs, cs);
  }

  lemma UnitPairsKnown(corpus: Corpus, e: Evidence, units: seq<Unit>, maxPairs: int, chosen: seq<seq<Queue.Candidate>>)
    requires GoodPools(e) && UnitsChosen(e, units, maxPairs, chosen) && e.sourceOf == SourceMap(corpus.populations)
    ensures PairsKnown(corpus, chosen)
  {
    forall g, c | 0 <= g < |chosen| && c in chosen[g] ensures c.left in SourceMap(corpus.populations) && c.right in SourceMap(corpus.populations) {
      ChosenAreKnown(corpus, e, Elements(units[g].sources), maxPairs, chosen[g]);
    }
  }

  lemma LinkPairsKnown(corpus: Corpus, e: Evidence, links: seq<Links.Link>, maxPairs: int, chosen: seq<seq<Queue.Candidate>>)
    requires GoodPools(e) && LinksChosen(e, links, maxPairs, chosen) && e.sourceOf == SourceMap(corpus.populations)
    ensures PairsKnown(corpus, chosen)
  {
    forall k, c | 0 <= k < |chosen| && c in chosen[k] ensures c.left in SourceMap(corpus.populations) && c.right in SourceMap(corpus.populations) {
      ChosenAreKnown(corpus, e, {links[k].edge.left, links[k].edge.right}, maxPairs, chosen[k]);
    }
  }

  lemma WorkIsPlanned(corpus: Corpus, p: Neighborhoods.Proposal, e: Evidence, policy: Policy, hash: Name -> Id, plan: Plan, made: Choices)
    requires Admitted(corpus, p, policy) && PlanOf(corpus, p, e, policy, hash, plan, made) && Injective(hash)
    ensures Planned(corpus, hash, plan.units, plan.links, made.forUnits, made.forLinks, plan.work)
  {
    UnitsOfPlan(corpus, p, policy, hash, made.shards);
    UnitsAndLinksDiffer(corpus, p, e, policy, hash, plan, made);
    Links.LinksAreValid(plan.units, hash, Links.AllNominations(p, policy.maxLinks), plan.links);
  }

  /**
   The work of a plan accounts for its motifs, units, links and chosen pairs: who names which sources
   and populations, and that each item depends on exactly the items that feed it.
   */
  lemma PlanAccounts(corpus: Corpus, p: Neighborhoods.Proposal, e: Evidence, policy: Policy, hash: Name -> Id, plan: Plan, made: Choices)
    requires Admitted(corpus, p, policy) && PlanOf(corpus, p, e, policy, hash, plan, made) && Injective(hash) && GoodPools(e)
    requires e.sourceOf == SourceMap(corpus.populations)
    ensures Accounts(corpus, plan.units, plan.links, made.forUnits, made.forLinks, plan.work)
  {
    WorkIsPlanned(corpus, p, e, policy, hash, plan, made);
    UnitPairsKnown(corpus, e, plan.units, policy.maxPairsPerUnit, made.forUnits);
    LinkPairsKnown(corpus, e, plan.links, policy.maxPairsPerLink, made.forLinks);
    PlannedWorkAccounts(corpus, hash, plan.units, plan.links, made.forUnits, made.forLinks, plan.work);
  }

  /** Some unit or link asks for pairs in a scope whose evidence names a context population. */
  ghost predicate ScopeFails(e: Evidence, units: seq<Unit>, links: seq<Links.Link>) {
    UnitFails(e, units) || LinkFails(e, links)
  }

  /** Some pair evidence names a context population. */
  ghost predicate NamesContext(corpus: Corpus, pairs: seq<(Id, Id)>) {
    exists p, k :: p in corpus.populations && p.isContext && 0 <= k < |pairs| && (pairs[k].0 == p.id || pairs[k].1 == p.id)
  }

  lemma ScopesNameContext(corpus: Corpus, pairs: seq<(Id, Id)>, scorer: Scorer, policy: Policy, scope: set<Id>)
    requires Fails(EvidenceFor(corpus, pairs, scorer, policy), scope)
    ensures NamesContext(corpus, pairs)
  {
    var e := EvidenceFor(corpus, pairs, scorer, policy);
    var k :| 0 <= k < |e.pairs| && (e.pairs[k].0 in e.contexts || e.pairs[k].1 in e.contexts);
  }

  lemma FailuresNameContext(corpus: Corpus, pairs: seq<(Id, Id)>, scorer: Scorer, policy: Policy, units: seq<Unit>, links: seq<Links.Link>)
    requires ScopeFails(EvidenceFor(corpus, pairs, scorer, policy), units, links)
    ensures NamesContext(corpus, pairs)
  {
    var e := EvidenceFor(corpus, pairs, scorer, policy);
    if UnitFails(e, units) {
      var u :| u in units && Fails(e, Elements(u.sources));
      ScopesNameContext(corpus, pairs, scorer, policy, Elements(u.sources));
    } else {
      var l :| l in links && Fails(e, {l.edge.left, l.edge.right});
      ScopesNameContext(corpus, pairs, scorer, policy, {l.edge.left, l.edge.right});
    }
  }

  /**
   Builds the plan. It fails exactly on what its callers got wrong and on a unit or link whose pair
   evidence names a context population; its closing call of the validator always passes.
   */
  method Build(corpus: Corpus, p: Neighborhoods.Proposal, pairs: seq<(Id, Id)>, scorer: Scorer, policy: Policy, hash: Name -> Id)
    returns (r: Result<Plan, PlanError>, ghost made: Choices, ghost units: seq<Unit>, ghost links: seq<Links.Link>)
    requires Injective(hash) && NamesPairs(scorer, IdSet(corpus.populations))
    ensures Admitted(corpus, p, policy) ==> StructureOf(corpus, p, policy, hash, made.shards, units, links)
    ensures r.Ok? <==>
      && Admitted(corpus, p, policy) && MotifsSourced(corpus.motifs)
      && !ScopeFails(EvidenceFor(corpus, pairs, scorer, policy), units, links)
    ensures r.Ok? ==>
      && PlanOf(corpus, p, EvidenceFor(corpus, pairs, scorer, policy), policy, hash, r.value, made)
      && r.value.units == units && r.value.links == links && ValidPlan(corpus, p, r.value)
      && Accounts(corpus, units, links, made.forUnits, made.forLinks, r.value.work) && WorkListed(r.value.work)
    ensures r == Err(EvidenceNamesContext) <==>
      && Admitted(corpus, p, policy) && MotifsSourced(corpus.motifs)
      && ScopeFails(EvidenceFor(corpus, pairs, scorer, policy), units, links)
    ensures Admitted(corpus, p, policy) && MotifsSourced(corpus.motifs) && !NamesContext(corpus, pairs) ==> r.Ok?
  {
    made, units, links := Choices([], [], []), [], [];
    var valid := ValidateCorpus(corpus);
    if !valid {
      return Err(InvalidCorpus), made, units, links;
    }
    var available := CorpusSources(corpus);
    var refused := Neighborhoods.Validate(available, p);
    if refused.Some? {
      return Err(InvalidNeighborhoods), made, units, links;
    }
    if policy.maximumSources < 1 || policy.maximumPopulations < 1 || policy.maxPairsPerUnit < 1 || policy.maxPairsPerLink < 1
       || policy.maxFanout < 1 || policy.maxLinks < 1 {
      return Err(BadParameter), made, units, links;
    }
    if policy.minimumPriority < 0.0 || policy.minimumPriority > 1.0 {
      return Err(BadParameter), made, units, links;
    }
    var sourced, sourceOf, bySource := GroupPopulations(corpus.populations);
    if !sourced {
      return Err(MissingSource), made, units, links;
    }
    var unitList, unitOf, linkList;
    ghost var shards;
    unitList, unitOf, linkList, shards := BuildStructure(corpus, p, policy, hash, bySource);
    units, links := unitList, linkList;
    var e := EvidenceFor(corpus, pairs, scorer, policy);
    PoolsAreGood(corpus, pairs, scorer, policy);
    var known, work, forUnits, forLinks := BuildWork(corpus, e, policy, hash, bySource, unitList, unitOf, linkList);
    made := Choices(shards, forUnits, forLinks);
    if ScopeFails(e, unitList, linkList) {
      FailuresNameContext(corpus, pairs, scorer, policy, unitList, linkList);
    }
    if known.Some? {
      return Err(known.value), made, units, links;
    }
    var plan := Plan(BoundsOf(policy), unitList, linkList, SortBy(work, WorkBefore));
    assert PlanOf(corpus, p, e, policy, hash, plan, made);
    PlanIsValid(corpus, p, e, policy, hash, plan, made);
    PlanAccounts(corpus, p, e, policy, hash, plan, made);
    var problem := Validate(corpus, p, plan);
    r := match problem case None => Ok(plan) case Some(found) => Err(found);
  }

  method BuildStructure(corpus: Corpus, p: Neighborhoods.Proposal, policy: Policy, hash: Name -> Id, bySource: BySource)
    returns (units: seq<Unit>, unitOf: map<Id, Id>, links: seq<Links.Link>, ghost shards: seq<seq<seq<Id>>>)
    requires Admitted(corpus, p, policy) && Injective(hash) && GroupedAs(corpus.populations, bySource)
    ensures AllSharded(corpus.populations, p.tight, BoundsOf(policy), SortBy(p.neighborhoods, ById), shards)
    ensures units == UnitsOf(corpus.populations, BoundsOf(policy), hash, SortBy(p.neighborhoods, ById), shards)
    ensures unitOf == Links.UnitMap(units)
    ensures Links.LinksOf(unitOf, hash, Links.AllNominations(p, policy.maxLinks), links)
    ensures Apart(units) && UnitIdsDistinct(units) && Links.ValidLinks(units, links)
  {
    var ns := SortBy(p.neighborhoods, ById);
    SortedPartition(p.sources, p.neighborhoods);
    units, shards := BuildUnits(bySource, corpus.populations, p.tight, BoundsOf(policy), hash, ns);
    UnitsOfPlan(corpus, p, policy, hash, shards);
    unitOf := Links.MapUnits(units);
    EndpointsMapped(p, unitOf, Available(corpus));
    links := Links.BuildLinks(unitOf, hash, p, policy.maxLinks);
    Links.LinksAreValid(units, hash, Links.AllNominations(p, policy.maxLinks), links);
  }

  method BuildWork(corpus: Corpus, e: Evidence, policy: Policy, hash: Name -> Id, bySource: BySource, units: seq<Unit>, unitOf: map<Id, Id>, links: seq<Links.Link>)
    returns (error: Option<PlanError>, work: seq<WorkItem>, ghost forUnits: seq<seq<Queue.Candidate>>, ghost forLinks: seq<seq<Queue.Candidate>>)
    requires GoodPolicy(policy) && GroupedAs(corpus.populations, bySource) && GoodPools(e) && e.sourceOf == SourceMap(corpus.populations)
    requires unitOf == Links.UnitMap(units) && Apart(units) && UnitIdsDistinct(units) && Links.ValidLinks(units, links)
    ensures error.None? <==> MotifsSourced(corpus.motifs) && !ScopeFails(e, units, links)
    ensures error.None? ==> UnitsChosen(e, units, policy.maxPairsPerUnit, forUnits) && LinksChosen(e, links, policy.maxPairsPerLink, forLinks)
    ensures error.None? ==> work == Items(corpus, hash, Tasks(corpus, units, links, forUnits, forLinks))
    ensures error.Some? ==>
      if error.value == MissingSource then !MotifsSourced(corpus.motifs) else error.value == EvidenceNamesContext && MotifsSourced(corpus.motifs)
  {
    forUnits, forLinks := [], [];
    var sourced, motifWork, filed := MotifWork(corpus, corpus.motifs, unitOf, hash);
    if !sourced {
      return Some(MissingSource), [], forUnits, forLinks;
    }
    forall u, s | u in units && s in u.sources ensures s in unitOf {
      var g :| 0 <= g < |units| && units[g] == u;
      Links.UnitOfSource(units, g, s);
    }
    var ok, unitWork, synthesisOf, linkWork;
    ok, unitWork, synthesisOf, forUnits := AllUnitWork(corpus, unitOf, e, bySource, filed, hash, units, policy.maxPairsPerUnit);
    if !ok {
      return Some(EvidenceNamesContext), [], forUnits, forLinks;
    }
    ok, linkWork, forLinks := AllLinkWork(corpus, e, synthesisOf, hash, links, policy.maxPairsPerLink, units);
    if !ok {
      return Some(EvidenceNamesContext), [], forUnits, forLinks;
    }
    ghost var motifs, ofUnits, ofLinks := MotifTasks(corpus.motifs, unitOf), UnitTasks(units, forUnits), LinkTasks(links, forLinks);
    ItemsConcat(corpus, hash, motifs, ofUnits);
    ItemsConcat(corpus, hash, motifs + ofUnits, ofLinks);
    work := motifWork + unitWork + linkWork;
    error := None;
  }

  // --- what a plan promises -----------------------------------------------------------------------------------

  /** In a valid plan every resolvable request can be answered, and what is selected runs dependencies first. */
  lemma PlansCanBeSelected(corpus: Corpus, p: Neighborhoods.Proposal, plan: Plan, request: SelectWork.Request, selected: seq<Id>)
    requires ValidPlan(corpus, p, plan)
    ensures UniqueIds(plan.work)
    ensures SelectWork.Selectable(IndexFor(plan.work), request) <==>
            SelectWork.Resolvable(IndexFor(plan.work), request) && SelectWork.AsksForWork(IndexFor(plan.work), request)
    ensures SelectWork.Selection(IndexFor(plan.work), request, selected) ==> DepsFirst(IndexFor(plan.work), selected)
  {
    var index := IndexFor(plan.work);
    ValidWorkKeepsStageRule(plan.work, index);
    forall w | w in index ensures !SelectWork.Broken(index, w) {
      SelectWork.StageRuleNeverBreaks(index, w);
    }
    if SelectWork.Selection(index, request, selected) {
      var targets :| SelectWork.Answers(index, request, targets, selected);
      SelectWork.ClosureRunsDepsFirst(index, targets, selected);
    }
  }

  ghost predicate Synthesises(plan: Plan, w: WorkItem, population: Id) {
    w in plan.work && w.kind == NeighborhoodSynthesis && population in w.populations
  }

  lemma SynthesisOfUnit(corpus: Corpus, hash: Name -> Id, t: Task, x: Id)
    requires t.SynthesisTask?
    ensures x in ItemOf(corpus, hash, t).populations <==> exists s :: s in t.unit.sources && x in At(corpus.populations, s)
  {
    ListedSame(PopulationsIn(corpus.populations, t.unit.sources));
    PopulationsOfSources(corpus.populations, t.unit.sources, x);
  }

  lemma SynthesisTaskUnit(plan: Plan, made: Choices, corpus: Corpus, t: Task) returns (g: nat)
    requires |made.forUnits| == |plan.units| && |made.forLinks| == |plan.links|
    requires t in Tasks(corpus, plan.units, plan.links, made.forUnits, made.forLinks) && t.SynthesisTask?
    ensures g < |plan.units| && t == SynthesisTask(plan.units[g], made.forUnits[g])
  {
    UnitTasksHave(plan.units, made.forUnits, t);
    LinkTasksHave(plan.links, made.forLinks, t);
    g :| 0 <= g < |plan.units| && t in UnitBlock(plan.units[g], made.forUnits[g]);
  }

  /** Every population of a represented source is synthesised by exactly one work item. */
  lemma EveryPopulationIsSynthesisedOnce(
      corpus: Corpus, p: Neighborhoods.Proposal, e: Evidence, policy: Policy, hash: Name -> Id, plan: Plan, made: Choices, q: Population)
    returns (w: WorkItem)
    requires Admitted(corpus, p, policy) && PlanOf(corpus, p, e, policy, hash, plan, made) && Injective(hash) && GoodPools(e)
    requires q in corpus.populations && !q.isContext && q.source.value in p.sources
    ensures Synthesises(plan, w, q.id) && forall v :: Synthesises(plan, v, q.id) ==> v == w
  {
    UnitsOfPlan(corpus, p, policy, hash, made.shards);
    assert q.source.value in Elements(AllSources(plan.units));
    var g := UnitOfRepresented(plan.units, q.source.value);
    w := ItemOf(corpus, hash, SynthesisTask(plan.units[g], made.forUnits[g]));
    UnitSynthesises(corpus, hash, plan, made, q, g, w);
    forall v | Synthesises(plan, v, q.id) ensures v == w {
      OnlySynthesis(corpus, hash, plan, made, q, g, v);
    }
  }

  lemma UnitOfRepresented(units: seq<Unit>, source: Id) returns (g: nat)
    requires source in AllSources(units)
    ensures g < |units| && source in units[g].sources
  {
    SourcesAreSources(units, source);
    var u :| u in units && source in u.sources;
    g :| 0 <= g < |units| && units[g] == u;
  }

  lemma UnitSynthesises(corpus: Corpus, hash: Name -> Id, plan: Plan, made: Choices, q: Population, g: nat, w: WorkItem)
    requires |made.forUnits| == |plan.units| && |made.forLinks| == |plan.links|
    requires plan.work == SortBy(Items(corpus, hash, Tasks(corpus, plan.units, plan.links, made.forUnits, made.forLinks)), WorkBefore)
    requires q in corpus.populations && !q.isContext && q.source.Some? && g < |plan.units| && q.source.value in plan.units[g].sources
    requires w == ItemOf(corpus, hash, SynthesisTask(plan.units[g], made.forUnits[g]))
    ensures Synthesises(plan, w, q.id)
  {
    var t := SynthesisTask(plan.units[g], made.forUnits[g]);
    UnitTasksHave(plan.units, made.forUnits, t);
    assert t in UnitBlock(plan.units[g], made.forUnits[g]);
    WorkOfTask(corpus, hash, Tasks(corpus, plan.units, plan.links, made.forUnits, made.forLinks), w);
    AtSource(corpus.populations, q.source.value, q.id);
    SynthesisOfUnit(corpus, hash, t, q.id);
  }

  /** A synthesis item holding the population belongs to the unit that holds its source. */
  lemma OnlySynthesis(corpus: Corpus, hash: Name -> Id, plan: Plan, made: Choices, q: Population, g: nat, v: WorkItem)
    requires |made.forUnits| == |plan.units| && |made.forLinks| == |plan.links| && ValidCorpus(corpus) && Apart(plan.units)
    requires plan.work == SortBy(Items(corpus, hash, Tasks(corpus, plan.units, plan.links, made.forUnits, made.forLinks)), WorkBefore)
    requires q in corpus.populations && q.source.Some? && g < |plan.units| && q.source.value in plan.units[g].sources
    requires Synthesises(plan, v, q.id)
    ensures v == ItemOf(corpus, hash, SynthesisTask(plan.units[g], made.forUnits[g]))
  {
    var tasks := Tasks(corpus, plan.units, plan.links, made.forUnits, made.forLinks);
    WorkOfTask(corpus, hash, tasks, v);
    var t :| t in tasks && v == ItemOf(corpus, hash, t);
    var h := SynthesisTaskUnit(plan, made, corpus, t);
    SynthesisOfUnit(corpus, hash, t, q.id);
    var s :| s in t.unit.sources && q.id in At(corpus.populations, s);
    AtSource(corpus.populations, s, q.id);
    var o :| o in corpus.populations && o.id == q.id && o.source == Some(s) && !o.isContext;
    SameId(corpus, o, q);
  }

  lemma SameId(corpus: Corpus, a: Population, b: Population)
    requires ValidCorpus(corpus) && a in corpus.populations && b in corpus.populations && a.id == b.id
    ensures a == b
  {
    var i :| 0 <= i < |corpus.populations| && corpus.populations[i] == a;
    var j :| 0 <= j < |corpus.populations| && corpus.populations[j] == b;
  }

  lemma PlannedUnitFits(corpus: Corpus, p: Neighborhoods.Proposal, e: Evidence, policy: Policy, hash: Name -> Id, plan: Plan, made: Choices, g: nat)
    requires Admitted(corpus, p, policy) && PlanOf(corpus, p, e, policy, hash, plan, made) && Injective(hash) && g < |plan.units|
    ensures Distinct(plan.units[g].sources) && UnitWithin(corpus.populations, BoundsOf(policy), Elements(p.sources), plan.units[g])
  {
    UnitsOfPlan(corpus, p, policy, hash, made.shards);
    assert plan.units[g] in plan.units;
  }

  lemma SynthesisSize(corpus: Corpus, hash: Name -> Id, u: Unit, cs: seq<Queue.Candidate>)
    requires Distinct(u.sources)
    ensures |SynthesisItem(corpus, hash, u, cs).sources| == |u.sources|
    ensures |SynthesisItem(corpus, hash, u, cs).populations| == PopulationCount(corpus.populations, u.sources)
  {
    DistinctSize(u.sources);
  }

  lemma SynthesisHasUnit(corpus: Corpus, hash: Name -> Id, plan: Plan, made: Choices, w: WorkItem) returns (g: nat)
    requires |made.forUnits| == |plan.units| && |made.forLinks| == |plan.links|
    requires plan.work == SortBy(Items(corpus, hash, Tasks(corpus, plan.units, plan.links, made.forUnits, made.forLinks)), WorkBefore)
    requires w in plan.work && w.kind == NeighborhoodSynthesis
    ensures g < |plan.units| && w == SynthesisItem(corpus, hash, plan.units[g], made.forUnits[g])
  {
    WorkOfTask(corpus, hash, Tasks(corpus, plan.units, plan.links, made.forUnits, made.forLinks), w);
    var t :| t in Tasks(corpus, plan.units, plan.links, made.forUnits, made.forLinks) && w == ItemOf(corpus, hash, t);
    g := SynthesisTaskUnit(plan, made, corpus, t);
  }

  /** A synthesis reads at most the bounded number of sources, and too many populations only of one source. */
  lemma SynthesisIsBounded(
      corpus: Corpus, p: Neighborhoods.Proposal, e: Evidence, policy: Policy, hash: Name -> Id, plan: Plan, made: Choices, w: WorkItem)
    requires Admitted(corpus, p, policy) && PlanOf(corpus, p, e, policy, hash, plan, made) && Injective(hash)
    requires w in plan.work && w.kind == NeighborhoodSynthesis
    ensures 1 <= |w.sources| <= policy.maximumSources
    ensures |w.populations| > policy.maximumPopulations ==> |w.sources| == 1
  {
    var g := SynthesisHasUnit(corpus, hash, plan, made, w);
    PlannedUnitFits(corpus, p, e, policy, hash, plan, made, g);
    SynthesisSize(corpus, hash, plan.units[g], made.forUnits[g]);
  }

  /** Every bridge nominated has a link between the two units it crosses, at least as strong. */
  lemma StrongestBridgesAreLinked(
      corpus: Corpus, p: Neighborhoods.Proposal, e: Evidence, policy: Policy, hash: Name -> Id, plan: Plan, made: Choices, b: Neighborhoods.Bridge)
    returns (l: Links.Link)
    requires Admitted(corpus, p, policy) && PlanOf(corpus, p, e, policy, hash, plan, made) && Injective(hash)
    requires b in Links.StrongestBridges(p.bridges, policy.maxLinks)
    ensures b.edge.left in Links.UnitMap(plan.units) && b.edge.right in Links.UnitMap(plan.units)
    ensures l in plan.links && l.kind == CrossNeighborhood && l.edge.similarity >= b.edge.similarity
    ensures {l.leftUnit, l.rightUnit} == {Links.UnitMap(plan.units)[b.edge.left], Links.UnitMap(plan.units)[b.edge.right]}
  {
    var unitOf, noms := Links.UnitMap(plan.units), Links.AllNominations(p, policy.maxLinks);
    UnitsOfPlan(corpus, p, policy, hash, made.shards);
    EndpointsMapped(p, unitOf, Available(corpus));
    Links.StrongestAreBridges(p.bridges, policy.maxLinks);
    var nom := Links.Nomination(CrossNeighborhood, b.edge);
    BridgeIsNominated(p, policy.maxLinks, b);
    BridgeCrosses(corpus, p, policy, hash, plan.units, made.shards, b);
    l := Links.LinkOfNomination(unitOf, hash, noms, plan.links, nom);
  }

  lemma BridgeIsNominated(p: Neighborhoods.Proposal, maxLinks: int, b: Neighborhoods.Bridge)
    requires b in Links.StrongestBridges(p.bridges, maxLinks)
    ensures Links.Nomination(CrossNeighborhood, b.edge) in Links.AllNominations(p, maxLinks)
  {
    var strongest := Links.StrongestBridges(p.bridges, maxLinks);
    var i :| 0 <= i < |strongest| && strongest[i] == b;
    assert Links.Nominations(CrossNeighborhood, Links.EdgesOf(strongest))[i] == Links.Nomination(CrossNeighborhood, b.edge);
  }

  /** A bridge joins two neighbourhoods, so no unit holds both of its sources. */
  lemma BridgeCrosses(
      corpus: Corpus, p: Neighborhoods.Proposal, policy: Policy, hash: Name -> Id, units: seq<Unit>, shards: seq<seq<seq<Id>>>, b: Neighborhoods.Bridge)
    requires Admitted(corpus, p, policy) && Injective(hash) && b in p.bridges
    requires AllSharded(corpus.populations, p.tight, BoundsOf(policy), SortBy(p.neighborhoods, ById), shards)
    requires units == UnitsOf(corpus.populations, BoundsOf(policy), hash, SortBy(p.neighborhoods, ById), shards)
    ensures Links.Crossing(Links.UnitMap(units), Links.Nomination(CrossNeighborhood, b.edge))
  {
    var unitOf := Links.UnitMap(units);
    UnitsOfPlan(corpus, p, policy, hash, shards);
    EndpointsMapped(p, unitOf, Available(corpus));
    var u := Links.UnitHolding(units, b.edge.left);
    var v := Links.UnitHolding(units, b.edge.right);
    BridgeHomesDiffer(p, b);
    if u.id == v.id {
      Links.SameIdSameUnit(units, u, v);
      UnitWithinOneHome(corpus, p, policy, hash, units, shards, u, b.edge.left, b.edge.right);
    }
  }

  lemma BridgeHomesDiffer(p: Neighborhoods.Proposal, b: Neighborhoods.Bridge)
    requires Neighborhoods.BridgeAgrees(p, b)
    ensures var home := Neighborhoods.HomeMap(p.neighborhoods); home[b.edge.left] != home[b.edge.right]
  {
    var home := Neighborhoods.HomeMap(p.neighborhoods);
    assert b.leftNeighborhood in {home[b.edge.left], home[b.edge.right]} && b.rightNeighborhood in {home[b.edge.left], home[b.edge.right]};
  }

  lemma UnitInNeighborhood(
      corpus: Corpus, p: Neighborhoods.Proposal, policy: Policy, hash: Name -> Id, shards: seq<seq<seq<Id>>>, u: Unit)
    returns (n: Neighborhoods.Neighborhood)
    requires AllSharded(corpus.populations, p.tight, BoundsOf(policy), SortBy(p.neighborhoods, ById), shards)
    requires u in UnitsOf(corpus.populations, BoundsOf(policy), hash, SortBy(p.neighborhoods, ById), shards)
    ensures n in SortBy(p.neighborhoods, ById) && forall s :: s in u.sources ==> s in n.members
  {
    var ns := SortBy(p.neighborhoods, ById);
    var g, k := UnitOrigin(corpus.populations, BoundsOf(policy), hash, ns, shards, u);
    n := ns[g];
    assert ShardsOf(corpus.populations, p.tight, BoundsOf(policy), n, shards[g]);
    forall s | s in shards[g][k] ensures s in n.members {
      assert s in Elements(n.members);
    }
  }

  lemma UnitWithinOneHome(
      corpus: Corpus, p: Neighborhoods.Proposal, policy: Policy, hash: Name -> Id, units: seq<Unit>, shards: seq<seq<seq<Id>>>, u: Unit, a: Id, b: Id)
    requires Admitted(corpus, p, policy) && u in units && a in u.sources && b in u.sources
    requires AllSharded(corpus.populations, p.tight, BoundsOf(policy), SortBy(p.neighborhoods, ById), shards)
    requires units == UnitsOf(corpus.populations, BoundsOf(policy), hash, SortBy(p.neighborhoods, ById), shards)
    ensures var home := Neighborhoods.HomeMap(p.neighborhoods); a in home && b in home && home[a] == home[b]
  {
    var n := UnitInNeighborhood(corpus, p, policy, hash, shards, u);
    SortKeeps(p.neighborhoods, ById);
    OneHome(p.neighborhoods, n, a, b);
  }

  lemma OneHome(ns: seq<Neighborhoods.Neighborhood>, n: Neighborhoods.Neighborhood, a: Id, b: Id)
    requires Distinct(Neighborhoods.AllMembers(ns)) && n in ns && a in n.members && b in n.members
    ensures var home := Neighborhoods.HomeMap(ns); a in home && b in home && home[a] == home[b]
  {
    var i :| 0 <= i < |ns| && ns[i] == n;
    DistinctIsDisjoint(ns);
    Neighborhoods.DisjointHomes(ns, i, a);
    Neighborhoods.DisjointHomes(ns, i, b);
  }
}
