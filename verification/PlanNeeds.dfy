/**
 What the work items of a plan are about and what they depend on, told from the items alone:
 who feeds a synthesis or a bridge, and which sources and populations an item names.
 */
module PlanNeeds {
  import opened Wrappers
  import opened Ordering
  import opened ExcavationUnits
  import opened WorkPlan
  import opened PlanWork
  import Links = ExcavationLinks
  import Queue = CandidateQueue

  /** Motif work of one of the sources of `w`, or a correspondence of its scope. */
  predicate FeedsSynthesis(w: WorkItem, v: WorkItem) {
    (v.kind == SourceMotifs && exists s :: s in v.sources && s in w.sources) || (v.kind == Correspondence && v.scope == w.scope)
  }

  /** The synthesis of one of the two units, or a correspondence of the link. */
  predicate FeedsBridge(l: Links.Link, v: WorkItem) {
    (v.kind == NeighborhoodSynthesis && (v.scope == l.leftUnit || v.scope == l.rightUnit)) || (v.kind == Correspondence && v.scope == l.id)
  }

  ghost predicate FeedsSynthesisOf(work: seq<WorkItem>, w: WorkItem, d: Id) {
    exists v :: v in work && v.id == d && FeedsSynthesis(w, v)
  }

  ghost predicate FeedsBridgeOf(work: seq<WorkItem>, l: Links.Link, d: Id) {
    exists v :: v in work && v.id == d && FeedsBridge(l, v)
  }

  ghost predicate NotFalling(xs: seq<Id>) {
    forall i, j :: 0 <= i < j < |xs| ==> xs[i] <= xs[j]
  }

  /** The dependencies of a synthesis are exactly the ids of the items that feed it, in ascending order. */
  ghost predicate SynthesisNeeds(work: seq<WorkItem>, w: WorkItem) {
    NotFalling(w.dependsOn) && forall d :: d in w.dependsOn <==> FeedsSynthesisOf(work, w, d)
  }

  /** The dependencies of a bridge are exactly the ids of the items that feed it, in ascending order. */
  ghost predicate BridgeNeeds(work: seq<WorkItem>, l: Links.Link, w: WorkItem) {
    NotFalling(w.dependsOn) && forall d :: d in w.dependsOn <==> FeedsBridgeOf(work, l, d)
  }

  // --- the four kinds of item --------------------------------------------------------------------------

  /** Motif work is about one motif: its source, its population if it has one, and no other work. */
  ghost predicate AboutMotif(m: Motif, w: WorkItem) {
    && w.kind == SourceMotifs && w.dependsOn == [] && m.source.Some? && w.scope == m.source.value && w.sources == [m.source.value]
    && w.populations == (match m.population case Some(x) => [x] case None => [])
  }

  /** A correspondence is about one pair of populations and the sources they come from. */
  ghost predicate AboutPair(populations: seq<Population>, scope: Id, c: Queue.Candidate, w: WorkItem) {
    && w.kind == Correspondence && w.dependsOn == [] && w.scope == scope
    && w.populations == (if c.left <= c.right then [c.left, c.right] else [c.right, c.left])
    && Ascending(w.sources)
    && (forall s :: s in w.sources <==>
          exists p :: p in populations && (p.id == c.left || p.id == c.right) && p.source == Some(s))
  }

  /** A synthesis is about one unit: its sources and all their populations that are no context. */
  ghost predicate AboutUnit(corpus: Corpus, work: seq<WorkItem>, u: Unit, w: WorkItem) {
    && w.kind == NeighborhoodSynthesis && w.scope == u.id
    && Ascending(w.sources) && Elements(w.sources) == Elements(u.sources)
    && NotFalling(w.populations)
    && (forall x :: x in w.populations <==>
          exists p :: p in corpus.populations && p.id == x && !p.isContext && p.source.Some? && p.source.value in u.sources)
    && SynthesisNeeds(work, w)
  }

  /** A bridge is about one link: the sources it ties and the populations of its correspondences. */
  ghost predicate AboutLink(work: seq<WorkItem>, l: Links.Link, w: WorkItem) {
    && w.kind == BridgeSynthesis && w.scope == l.id
    && Ascending(w.sources) && Elements(w.sources) == {l.edge.left, l.edge.right}
    && Ascending(w.populations)
    && (forall x :: x in w.populations <==> exists v :: v in work && v.kind == Correspondence && v.scope == l.id && x in v.populations)
    && BridgeNeeds(work, l, w)
  }

  // --- planned work ----------------------------------------------------------------------------------------

  /** The work of units and links with the pairs chosen for them. */
  ghost predicate Planned(
      corpus: Corpus, hash: Name -> Id, units: seq<Unit>, links: seq<Links.Link>, forUnits: seq<seq<Queue.Candidate>>,
      forLinks: seq<seq<Queue.Candidate>>, work: seq<WorkItem>)
  {
    && |forUnits| == |units| && |forLinks| == |links|
    && work == SortBy(Items(corpus, hash, Tasks(corpus, units, links, forUnits, forLinks)), WorkBefore)
    && UnitIdsDistinct(units) && Links.ValidLinks(units, links)
    && (forall u, l :: u in units && l in links ==> u.id != l.id)
  }

  lemma WorkOfTask(corpus: Corpus, hash: Name -> Id, tasks: seq<Task>, w: WorkItem)
    ensures w in SortBy(Items(corpus, hash, tasks), WorkBefore) <==> exists t :: t in tasks && w == ItemOf(corpus, hash, t)
  {
    var items := Items(corpus, hash, tasks);
    SortKeeps(items, WorkBefore);
    if w in items {
      var i :| 0 <= i < |items| && items[i] == w;
      assert tasks[i] in tasks;
    }
    if t :| t in tasks && w == ItemOf(corpus, hash, t) {
      var i :| 0 <= i < |tasks| && tasks[i] == t;
      assert items[i] == w;
    }
  }

  lemma ListedInOrder(xs: seq<Id>)
    ensures NotFalling(Listed(xs))
    ensures forall x :: x in Listed(xs) <==> x in xs
  {
    assert StrictWeak(Less);
    SortInOrder(xs, Less);
    ListedSame(xs);
  }

  /** The kind and the scope of an item tell what its task is. */
  lemma ItemOfTask(corpus: Corpus, hash: Name -> Id, t: Task)
    ensures var w := ItemOf(corpus, hash, t);
      && (w.kind == SourceMotifs <==> t.MotifTask?) && (w.kind == Correspondence <==> t.EvidenceTask?)
      && (w.kind == NeighborhoodSynthesis <==> t.SynthesisTask?) && (w.kind == BridgeSynthesis <==> t.BridgeTask?)
      && (!t.MotifTask? ==> ScopeOf(t) == Some(w.scope))
  {
  }

  lemma InUnitBlock(u: Unit, cs: seq<Queue.Candidate>, t: Task)
    ensures t in UnitBlock(u, cs) <==> (t.EvidenceTask? && t.scope == u.id && t.pair in cs) || t == SynthesisTask(u, cs)
  {
    InScopeTasks(u.id, cs, t);
  }

  lemma InLinkBlock(l: Links.Link, cs: seq<Queue.Candidate>, t: Task)
    ensures t in LinkBlock(l, cs) <==> (t.EvidenceTask? && t.scope == l.id && t.pair in cs) || t == BridgeTask(l, cs)
  {
    InScopeTasks(l.id, cs, t);
  }

  lemma InScopeTasks(scope: Id, cs: seq<Queue.Candidate>, t: Task)
    ensures t in ScopeTasks(scope, cs) <==> t.EvidenceTask? && t.scope == scope && t.pair in cs
  {
    if t.EvidenceTask? && t.scope == scope && t.pair in cs {
      var i :| 0 <= i < |cs| && cs[i] == t.pair;
      assert ScopeTasks(scope, cs)[i] == t;
    }
  }

  /** What the tasks of a plan are. */
  lemma PlannedTask(
      corpus: Corpus, units: seq<Unit>, links: seq<Links.Link>, forUnits: seq<seq<Queue.Candidate>>, forLinks: seq<seq<Queue.Candidate>>, t: Task)
    requires |forUnits| == |units| && |forLinks| == |links|
    ensures t in Tasks(corpus, units, links, forUnits, forLinks) <==>
      match t
      case MotifTask(m) => m in corpus.motifs && Mapped(Links.UnitMap(units), m)
      case EvidenceTask(scope, c) =>
        || (exists g :: 0 <= g < |units| && units[g].id == scope && c in forUnits[g])
        || (exists k :: 0 <= k < |links| && links[k].id == scope && c in forLinks[k])
      case SynthesisTask(u, cs) => exists g :: 0 <= g < |units| && units[g] == u && forUnits[g] == cs
      case BridgeTask(l, cs) => exists k :: 0 <= k < |links| && links[k] == l && forLinks[k] == cs
  {
    UnitTasksHave(units, forUnits, t);
    LinkTasksHave(links, forLinks, t);
    forall g | 0 <= g < |units| ensures t in UnitBlock(units[g], forUnits[g]) <==>
      (t.EvidenceTask? && t.scope == units[g].id && t.pair in forUnits[g]) || t == SynthesisTask(units[g], forUnits[g])
    {
      InUnitBlock(units[g], forUnits[g], t);
    }
    forall k | 0 <= k < |links| ensures t in LinkBlock(links[k], forLinks[k]) <==>
      (t.EvidenceTask? && t.scope == links[k].id && t.pair in forLinks[k]) || t == BridgeTask(links[k], forLinks[k])
    {
      InLinkBlock(links[k], forLinks[k], t);
    }
  }

  /** Every item comes from a task of its kind and scope. */
  lemma TaskOfItem(
      corpus: Corpus, hash: Name -> Id, units: seq<Unit>, links: seq<Links.Link>, forUnits: seq<seq<Queue.Candidate>>,
      forLinks: seq<seq<Queue.Candidate>>, work: seq<WorkItem>, v: WorkItem) returns (t: Task)
    requires Planned(corpus, hash, units, links, forUnits, forLinks, work) && v in work
    ensures t in Tasks(corpus, units, links, forUnits, forLinks) && v == ItemOf(corpus, hash, t)
    ensures (v.kind == SourceMotifs <==> t.MotifTask?) && (v.kind == Correspondence <==> t.EvidenceTask?)
    ensures (v.kind == NeighborhoodSynthesis <==> t.SynthesisTask?) && (v.kind == BridgeSynthesis <==> t.BridgeTask?)
    ensures !t.MotifTask? ==> ScopeOf(t) == Some(v.scope)
  {
    WorkOfTask(corpus, hash, Tasks(corpus, units, links, forUnits, forLinks), v);
    t :| t in Tasks(corpus, units, links, forUnits, forLinks) && v == ItemOf(corpus, hash, t);
    ItemOfTask(corpus, hash, t);
  }

  lemma ItemIsPlanned(
      corpus: Corpus, hash: Name -> Id, units: seq<Unit>, links: seq<Links.Link>, forUnits: seq<seq<Queue.Candidate>>,
      forLinks: seq<seq<Queue.Candidate>>, work: seq<WorkItem>, t: Task)
    requires Planned(corpus, hash, units, links, forUnits, forLinks, work) && t in Tasks(corpus, units, links, forUnits, forLinks)
    ensures ItemOf(corpus, hash, t) in work
  {
    WorkOfTask(corpus, hash, Tasks(corpus, units, links, forUnits, forLinks), ItemOf(corpus, hash, t));
  }

  /** A pair is planned in the scope of a unit exactly when it was chosen for the unit. */
  lemma UnitPair(
      corpus: Corpus, units: seq<Unit>, links: seq<Links.Link>, forUnits: seq<seq<Queue.Candidate>>, forLinks: seq<seq<Queue.Candidate>>,
      g: nat, c: Queue.Candidate)
    requires |forUnits| == |units| && |forLinks| == |links| && UnitIdsDistinct(units) && g < |units|
    requires forall u, l :: u in units && l in links ==> u.id != l.id
    ensures EvidenceTask(units[g].id, c) in Tasks(corpus, units, links, forUnits, forLinks) <==> c in forUnits[g]
  {
    PlannedTask(corpus, units, links, forUnits, forLinks, EvidenceTask(units[g].id, c));
    forall k | 0 <= k < |links| ensures links[k].id != units[g].id {
      assert links[k] in links && units[g] in units;
    }
    forall h | 0 <= h < |units| && units[h].id == units[g].id ensures h == g {
    }
  }

  lemma LinkPair(
      corpus: Corpus, units: seq<Unit>, links: seq<Links.Link>, forUnits: seq<seq<Queue.Candidate>>, forLinks: seq<seq<Queue.Candidate>>,
      k: nat, c: Queue.Candidate)
    requires |forUnits| == |units| && |forLinks| == |links| && Links.LinkIdsDistinct(links) && k < |links|
    requires forall u, l :: u in units && l in links ==> u.id != l.id
    ensures EvidenceTask(links[k].id, c) in Tasks(corpus, units, links, forUnits, forLinks) <==> c in forLinks[k]
  {
    PlannedTask(corpus, units, links, forUnits, forLinks, EvidenceTask(links[k].id, c));
    forall g | 0 <= g < |units| ensures units[g].id != links[k].id {
      assert links[k] in links && units[g] in units;
    }
    forall h | 0 <= h < |links| && links[h].id == links[k].id ensures h == k {
    }
  }

  /** The pairs of a scope are the ones chosen for it. */
  ghost predicate PairsOfScope(tasks: seq<Task>, scope: Id, cs: seq<Queue.Candidate>) {
    forall c :: EvidenceTask(scope, c) in tasks <==> c in cs
  }

  lemma UnitPairs(
      corpus: Corpus, hash: Name -> Id, units: seq<Unit>, links: seq<Links.Link>, forUnits: seq<seq<Queue.Candidate>>,
      forLinks: seq<seq<Queue.Candidate>>, work: seq<WorkItem>, g: nat)
    requires Planned(corpus, hash, units, links, forUnits, forLinks, work) && g < |units|
    ensures PairsOfScope(Tasks(corpus, units, links, forUnits, forLinks), units[g].id, forUnits[g])
  {
    forall c ensures EvidenceTask(units[g].id, c) in Tasks(corpus, units, links, forUnits, forLinks) <==> c in forUnits[g] {
      UnitPair(corpus, units, links, forUnits, forLinks, g, c);
    }
  }

  lemma LinkPairs(
      corpus: Corpus, hash: Name -> Id, units: seq<Unit>, links: seq<Links.Link>, forUnits: seq<seq<Queue.Candidate>>,
      forLinks: seq<seq<Queue.Candidate>>, work: seq<WorkItem>, k: nat)
    requires Planned(corpus, hash, units, links, forUnits, forLinks, work) && k < |links|
    ensures PairsOfScope(Tasks(corpus, units, links, forUnits, forLinks), links[k].id, forLinks[k])
  {
    forall c ensures EvidenceTask(links[k].id, c) in Tasks(corpus, units, links, forUnits, forLinks) <==> c in forLinks[k] {
      LinkPair(corpus, units, links, forUnits, forLinks, k, c);
    }
  }

  lemma ScopeEvidence(
      corpus: Corpus, hash: Name -> Id, units: seq<Unit>, links: seq<Links.Link>, forUnits: seq<seq<Queue.Candidate>>,
      forLinks: seq<seq<Queue.Candidate>>, work: seq<WorkItem>, scope: Id, cs: seq<Queue.Candidate>, v: WorkItem)
    requires Planned(corpus, hash, units, links, forUnits, forLinks, work) && PairsOfScope(Tasks(corpus, units, links, forUnits, forLinks), scope, cs)
    ensures v in work && v.kind == Correspondence && v.scope == scope <==> exists c :: c in cs && v == ItemOf(corpus, hash, EvidenceTask(scope, c))
  {
    if v in work && v.kind == Correspondence && v.scope == scope {
      var t := TaskOfItem(corpus, hash, units, links, forUnits, forLinks, work, v);
      assert t == EvidenceTask(scope, t.pair);
    }
    if c :| c in cs && v == ItemOf(corpus, hash, EvidenceTask(scope, c)) {
      ItemIsPlanned(corpus, hash, units, links, forUnits, forLinks, work, EvidenceTask(scope, c));
      ItemOfTask(corpus, hash, EvidenceTask(scope, c));
    }
  }

  /** Motif work is planned for exactly the motifs of represented sources. */
  lemma MotifWorkPlanned(
      corpus: Corpus, hash: Name -> Id, units: seq<Unit>, links: seq<Links.Link>, forUnits: seq<seq<Queue.Candidate>>,
      forLinks: seq<seq<Queue.Candidate>>, work: seq<WorkItem>, v: WorkItem)
    requires Planned(corpus, hash, units, links, forUnits, forLinks, work)
    ensures v in work && v.kind == SourceMotifs <==>
            exists m :: m in corpus.motifs && m.source.Some? && m.source.value in AllSources(units) && v == ItemOf(corpus, hash, MotifTask(m))
  {
    Links.MappedSources(units);
    assert forall s :: s in Links.UnitMap(units) <==> s in Elements(AllSources(units));
    if v in work && v.kind == SourceMotifs {
      var t := TaskOfItem(corpus, hash, units, links, forUnits, forLinks, work, v);
      PlannedTask(corpus, units, links, forUnits, forLinks, t);
    }
    if m :| m in corpus.motifs && m.source.Some? && m.source.value in AllSources(units) && v == ItemOf(corpus, hash, MotifTask(m)) {
      PlannedTask(corpus, units, links, forUnits, forLinks, MotifTask(m));
      ItemIsPlanned(corpus, hash, units, links, forUnits, forLinks, work, MotifTask(m));
    }
  }

  lemma SynthesisPlanned(
      corpus: Corpus, hash: Name -> Id, units: seq<Unit>, links: seq<Links.Link>, forUnits: seq<seq<Queue.Candidate>>,
      forLinks: seq<seq<Queue.Candidate>>, work: seq<WorkItem>, v: WorkItem)
    requires Planned(corpus, hash, units, links, forUnits, forLinks, work)
    ensures v in work && v.kind == NeighborhoodSynthesis <==>
            exists g :: 0 <= g < |units| && v == ItemOf(corpus, hash, SynthesisTask(units[g], forUnits[g]))
  {
    if v in work && v.kind == NeighborhoodSynthesis {
      var t := TaskOfItem(corpus, hash, units, links, forUnits, forLinks, work, v);
      PlannedTask(corpus, units, links, forUnits, forLinks, t);
    }
    if g :| 0 <= g < |units| && v == ItemOf(corpus, hash, SynthesisTask(units[g], forUnits[g])) {
      PlannedTask(corpus, units, links, forUnits, forLinks, SynthesisTask(units[g], forUnits[g]));
      ItemIsPlanned(corpus, hash, units, links, forUnits, forLinks, work, SynthesisTask(units[g], forUnits[g]));
    }
  }

  lemma BridgePlanned(
      corpus: Corpus, hash: Name -> Id, units: seq<Unit>, links: seq<Links.Link>, forUnits: seq<seq<Queue.Candidate>>,
      forLinks: seq<seq<Queue.Candidate>>, work: seq<WorkItem>, v: WorkItem)
    requires Planned(corpus, hash, units, links, forUnits, forLinks, work)
    ensures v in work && v.kind == BridgeSynthesis <==>
            exists k :: 0 <= k < |links| && v == ItemOf(corpus, hash, BridgeTask(links[k], forLinks[k]))
  {
    if v in work && v.kind == BridgeSynthesis {
      var t := TaskOfItem(corpus, hash, units, links, forUnits, forLinks, work, v);
      PlannedTask(corpus, units, links, forUnits, forLinks, t);
    }
    if k :| 0 <= k < |links| && v == ItemOf(corpus, hash, BridgeTask(links[k], forLinks[k])) {
      PlannedTask(corpus, units, links, forUnits, forLinks, BridgeTask(links[k], forLinks[k]));
      ItemIsPlanned(corpus, hash, units, links, forUnits, forLinks, work, BridgeTask(links[k], forLinks[k]));
    }
  }

  // --- dependencies ------------------------------------------------------------------------------------------

  /** An id of some work of a kind and a scope. */
  ghost predicate IdOfWork(work: seq<WorkItem>, kind: Kind, scope: Id, d: Id) {
    exists v :: v in work && v.id == d && v.kind == kind && v.scope == scope
  }

  lemma EvidenceFeeds(
      corpus: Corpus, hash: Name -> Id, units: seq<Unit>, links: seq<Links.Link>, forUnits: seq<seq<Queue.Candidate>>,
      forLinks: seq<seq<Queue.Candidate>>, work: seq<WorkItem>, scope: Id, cs: seq<Queue.Candidate>, d: Id)
    requires Planned(corpus, hash, units, links, forUnits, forLinks, work) && PairsOfScope(Tasks(corpus, units, links, forUnits, forLinks), scope, cs)
    ensures d in EvidenceIds(hash, scope, cs) <==> IdOfWork(work, Correspondence, scope, d)
  {
    if d in EvidenceIds(hash, scope, cs) {
      var i :| 0 <= i < |cs| && EvidenceIds(hash, scope, cs)[i] == d;
      var v := ItemOf(corpus, hash, EvidenceTask(scope, cs[i]));
      ScopeEvidence(corpus, hash, units, links, forUnits, forLinks, work, scope, cs, v);
      assert v in work && v.id == d;
    }
    if IdOfWork(work, Correspondence, scope, d) {
      var v :| v in work && v.id == d && v.kind == Correspondence && v.scope == scope;
      ScopeEvidence(corpus, hash, units, links, forUnits, forLinks, work, scope, cs, v);
      var c :| c in cs && v == ItemOf(corpus, hash, EvidenceTask(scope, c));
      var i :| 0 <= i < |cs| && cs[i] == c;
      assert EvidenceIds(hash, scope, cs)[i] == d;
    }
  }

  lemma SourceIsRepresented(units: seq<Unit>, g: nat, s: Id)
    requires g < |units| && s in units[g].sources
    ensures s in AllSources(units)
  {
    SourcesAreSources(units, s);
    assert units[g] in units;
  }

  /** A motif's work id is listed for a unit exactly when motif work of one of its sources has it. */
  lemma MotifsFeed(
      corpus: Corpus, hash: Name -> Id, units: seq<Unit>, links: seq<Links.Link>, forUnits: seq<seq<Queue.Candidate>>,
      forLinks: seq<seq<Queue.Candidate>>, work: seq<WorkItem>, g: nat, d: Id)
    requires Planned(corpus, hash, units, links, forUnits, forLinks, work) && g < |units|
    ensures d in MotifIdsOf(corpus.motifs, hash, units[g].sources) <==> IdOfMotifWork(work, units[g].sources, d)
  {
    MotifsOfSources(corpus.motifs, hash, units[g].sources, d);
    if d in MotifIdsOf(corpus.motifs, hash, units[g].sources) {
      var s :| s in units[g].sources && d in MotifIds(corpus.motifs, hash, s);
      var m :| m in corpus.motifs && m.source == Some(s) && d == hash(MotifName(m.id));
      var v := ItemOf(corpus, hash, MotifTask(m));
      SourceIsRepresented(units, g, s);
      MotifWorkPlanned(corpus, hash, units, links, forUnits, forLinks, work, v);
      assert v in work && v.id == d && s in v.sources;
    }
    if v :| v in work && v.id == d && v.kind == SourceMotifs && exists s :: s in v.sources && s in units[g].sources {
      MotifWorkPlanned(corpus, hash, units, links, forUnits, forLinks, work, v);
      var m :| m in corpus.motifs && m.source.Some? && m.source.value in AllSources(units) && v == ItemOf(corpus, hash, MotifTask(m));
      assert d in MotifIds(corpus.motifs, hash, m.source.value);
    }
  }

  /** An id of motif work of one of the sources. */
  ghost predicate IdOfMotifWork(work: seq<WorkItem>, sources: seq<Id>, d: Id) {
    exists v :: v in work && v.id == d && v.kind == SourceMotifs && exists s :: s in v.sources && s in sources
  }

  lemma SynthesisFedBy(work: seq<WorkItem>, w: WorkItem, sources: seq<Id>, d: Id)
    requires Elements(w.sources) == Elements(sources)
    ensures FeedsSynthesisOf(work, w, d) <==>
            IdOfMotifWork(work, sources, d) || IdOfWork(work, Correspondence, w.scope, d)
  {
    assert forall s :: s in w.sources <==> s in Elements(sources);
    if v :| v in work && v.id == d && v.kind == SourceMotifs && exists s :: s in v.sources && s in sources {
      assert FeedsSynthesis(w, v);
    }
    if v :| v in work && v.id == d && v.kind == Correspondence && v.scope == w.scope {
      assert FeedsSynthesis(w, v);
    }
  }

  lemma SynthesisIds(corpus: Corpus, hash: Name -> Id, u: Unit, cs: seq<Queue.Candidate>)
    ensures var w := ItemOf(corpus, hash, SynthesisTask(u, cs));
      && w.scope == u.id && Elements(w.sources) == Elements(u.sources)
      && NotFalling(w.dependsOn)
      && (forall d :: d in w.dependsOn <==> d in EvidenceIds(hash, u.id, cs) || d in MotifIdsOf(corpus.motifs, hash, u.sources))
  {
    ListedInOrder(EvidenceIds(hash, u.id, cs) + MotifIdsOf(corpus.motifs, hash, u.sources));
  }

  lemma SynthesisNeedsOne(
      corpus: Corpus, hash: Name -> Id, units: seq<Unit>, links: seq<Links.Link>, forUnits: seq<seq<Queue.Candidate>>,
      forLinks: seq<seq<Queue.Candidate>>, work: seq<WorkItem>, g: nat, w: WorkItem, d: Id)
    requires Planned(corpus, hash, units, links, forUnits, forLinks, work) && g < |units|
    requires w.scope == units[g].id && Elements(w.sources) == Elements(units[g].sources)
    ensures d in EvidenceIds(hash, units[g].id, forUnits[g]) || d in MotifIdsOf(corpus.motifs, hash, units[g].sources) <==>
            FeedsSynthesisOf(work, w, d)
  {
    UnitPairs(corpus, hash, units, links, forUnits, forLinks, work, g);
    EvidenceFeeds(corpus, hash, units, links, forUnits, forLinks, work, units[g].id, forUnits[g], d);
    MotifsFeed(corpus, hash, units, links, forUnits, forLinks, work, g, d);
    SynthesisFedBy(work, w, units[g].sources, d);
  }

  lemma SynthesisNeedsAll(
      corpus: Corpus, hash: Name -> Id, units: seq<Unit>, links: seq<Links.Link>, forUnits: seq<seq<Queue.Candidate>>,
      forLinks: seq<seq<Queue.Candidate>>, work: seq<WorkItem>, g: nat)
    requires Planned(corpus, hash, units, links, forUnits, forLinks, work) && g < |units|
    ensures SynthesisNeeds(work, ItemOf(corpus, hash, SynthesisTask(units[g], forUnits[g])))
  {
    var w := ItemOf(corpus, hash, SynthesisTask(units[g], forUnits[g]));
    SynthesisIds(corpus, hash, units[g], forUnits[g]);
    forall d ensures d in w.dependsOn <==> FeedsSynthesisOf(work, w, d) {
      SynthesisNeedsOne(corpus, hash, units, links, forUnits, forLinks, work, g, w, d);
    }
  }

  lemma SynthesisOfId(
      corpus: Corpus, hash: Name -> Id, units: seq<Unit>, links: seq<Links.Link>, forUnits: seq<seq<Queue.Candidate>>,
      forLinks: seq<seq<Queue.Candidate>>, work: seq<WorkItem>, id: Id, d: Id)
    requires Planned(corpus, hash, units, links, forUnits, forLinks, work) && id in SourcesOf(units)
    ensures d == hash(SynthesisName(id)) <==> IdOfWork(work, NeighborhoodSynthesis, id, d)
  {
    Links.SourcesOfUnit(units);
    var u :| u in units && u.id == id;
    var g :| 0 <= g < |units| && units[g] == u;
    var t := SynthesisTask(units[g], forUnits[g]);
    SynthesisPlanned(corpus, hash, units, links, forUnits, forLinks, work, ItemOf(corpus, hash, t));
    ItemOfTask(corpus, hash, t);
    if IdOfWork(work, NeighborhoodSynthesis, id, d) {
      var v :| v in work && v.id == d && v.kind == NeighborhoodSynthesis && v.scope == id;
      var s := TaskOfItem(corpus, hash, units, links, forUnits, forLinks, work, v);
    }
  }

  lemma BridgeFedBy(work: seq<WorkItem>, l: Links.Link, d: Id)
    ensures FeedsBridgeOf(work, l, d) <==>
      || IdOfWork(work, NeighborhoodSynthesis, l.leftUnit, d) || IdOfWork(work, NeighborhoodSynthesis, l.rightUnit, d)
      || IdOfWork(work, Correspondence, l.id, d)
  {
    forall v | v in work && v.id == d && v.kind == NeighborhoodSynthesis && (v.scope == l.leftUnit || v.scope == l.rightUnit) ensures FeedsBridge(l, v) {
    }
    forall v | v in work && v.id == d && v.kind == Correspondence && v.scope == l.id ensures FeedsBridge(l, v) {
    }
  }

  lemma BridgeNeedsOne(
      corpus: Corpus, hash: Name -> Id, units: seq<Unit>, links: seq<Links.Link>, forUnits: seq<seq<Queue.Candidate>>,
      forLinks: seq<seq<Queue.Candidate>>, work: seq<WorkItem>, k: nat, d: Id)
    requires Planned(corpus, hash, units, links, forUnits, forLinks, work) && k < |links|
    ensures d == hash(SynthesisName(links[k].leftUnit)) || d == hash(SynthesisName(links[k].rightUnit)) || d in EvidenceIds(hash, links[k].id, forLinks[k])
            <==> FeedsBridgeOf(work, links[k], d)
  {
    assert links[k] in links;
    LinkPairs(corpus, hash, units, links, forUnits, forLinks, work, k);
    EvidenceFeeds(corpus, hash, units, links, forUnits, forLinks, work, links[k].id, forLinks[k], d);
    SynthesisOfId(corpus, hash, units, links, forUnits, forLinks, work, links[k].leftUnit, d);
    SynthesisOfId(corpus, hash, units, links, forUnits, forLinks, work, links[k].rightUnit, d);
    BridgeFedBy(work, links[k], d);
  }

  lemma BridgeNeedsAll(
      corpus: Corpus, hash: Name -> Id, units: seq<Unit>, links: seq<Links.Link>, forUnits: seq<seq<Queue.Candidate>>,
      forLinks: seq<seq<Queue.Candidate>>, work: seq<WorkItem>, k: nat)
    requires Planned(corpus, hash, units, links, forUnits, forLinks, work) && k < |links|
    ensures BridgeNeeds(work, links[k], ItemOf(corpus, hash, BridgeTask(links[k], forLinks[k])))
  {
    var l, cs := links[k], forLinks[k];
    var w := ItemOf(corpus, hash, BridgeTask(l, cs));
    var both := [hash(SynthesisName(l.leftUnit)), hash(SynthesisName(l.rightUnit))];
    ListedInOrder(both + EvidenceIds(hash, l.id, cs));
    forall d ensures d in w.dependsOn <==> FeedsBridgeOf(work, l, d) {
      assert d in both <==> d == both[0] || d == both[1];
      BridgeNeedsOne(corpus, hash, units, links, forUnits, forLinks, work, k, d);
    }
  }

  // --- what the items are about ----------------------------------------------------------------------------

  lemma {:induction false} SourceMapHas(populations: seq<Population>, x: Id, s: Id)
    requires forall i, j :: 0 <= i < j < |populations| ==> populations[i].id != populations[j].id
    ensures x in SourceMap(populations) && SourceMap(populations)[x] == s <==> exists p :: p in populations && p.id == x && p.source == Some(s)
  {
    if populations != [] {
      var init, last := populations[..|populations| - 1], populations[|populations| - 1];
      assert populations == init + [last];
      SourceMapHas(init, x, s);
      if p :| p in init && p.id == x && p.source == Some(s) {
        var i :| 0 <= i < |init| && init[i] == p;
        assert populations[i].id != populations[|populations| - 1].id;
      }
      assert last in populations;
    }
  }

  lemma {:induction false} AtSource(populations: seq<Population>, source: Id, x: Id)
    ensures x in At(populations, source) <==> exists p :: p in populations && p.id == x && p.source == Some(source) && !p.isContext
  {
    if populations != [] {
      var init, last := populations[..|populations| - 1], populations[|populations| - 1];
      assert populations == init + [last];
      AtSource(init, source, x);
      assert last in populations;
    }
  }

  lemma MotifItemIs(corpus: Corpus, hash: Name -> Id, m: Motif)
    requires m.source.Some?
    ensures AboutMotif(m, ItemOf(corpus, hash, MotifTask(m)))
  {
  }

  lemma PairItemIs(corpus: Corpus, hash: Name -> Id, scope: Id, c: Queue.Candidate)
    requires ValidCorpus(corpus) && c.left in SourceMap(corpus.populations) && c.right in SourceMap(corpus.populations)
    ensures AboutPair(corpus.populations, scope, c, ItemOf(corpus, hash, EvidenceTask(scope, c)))
  {
    var sources := SourceMap(corpus.populations);
    var w := ItemOf(corpus, hash, EvidenceTask(scope, c));
    ListedPair(c.left, c.right);
    forall s ensures s in w.sources <==> exists p :: p in corpus.populations && (p.id == c.left || p.id == c.right) && p.source == Some(s) {
      SourceMapHas(corpus.populations, c.left, s);
      SourceMapHas(corpus.populations, c.right, s);
      assert s in w.sources <==> s in Elements(w.sources);
    }
  }

  lemma UnitItemIs(
      corpus: Corpus, hash: Name -> Id, units: seq<Unit>, links: seq<Links.Link>, forUnits: seq<seq<Queue.Candidate>>,
      forLinks: seq<seq<Queue.Candidate>>, work: seq<WorkItem>, g: nat)
    requires Planned(corpus, hash, units, links, forUnits, forLinks, work) && g < |units|
    ensures AboutUnit(corpus, work, units[g], ItemOf(corpus, hash, SynthesisTask(units[g], forUnits[g])))
  {
    var w := ItemOf(corpus, hash, SynthesisTask(units[g], forUnits[g]));
    SynthesisNeedsAll(corpus, hash, units, links, forUnits, forLinks, work, g);
    ListedInOrder(PopulationsIn(corpus.populations, units[g].sources));
    forall x ensures x in w.populations <==>
      exists p :: p in corpus.populations && p.id == x && !p.isContext && p.source.Some? && p.source.value in units[g].sources
    {
      PopulationsOfUnit(corpus.populations, units[g].sources, x);
    }
  }

  lemma PopulationsOfUnit(populations: seq<Population>, sources: seq<Id>, x: Id)
    ensures x in PopulationsIn(populations, sources) <==>
            exists p :: p in populations && p.id == x && !p.isContext && p.source.Some? && p.source.value in sources
  {
    PopulationsOfSources(populations, sources, x);
    if x in PopulationsIn(populations, sources) {
      var s :| s in sources && x in At(populations, s);
      AtSource(populations, s, x);
    }
    if p :| p in populations && p.id == x && !p.isContext && p.source.Some? && p.source.value in sources {
      AtSource(populations, p.source.value, x);
    }
  }

  lemma LinkItemIs(
      corpus: Corpus, hash: Name -> Id, units: seq<Unit>, links: seq<Links.Link>, forUnits: seq<seq<Queue.Candidate>>,
      forLinks: seq<seq<Queue.Candidate>>, work: seq<WorkItem>, k: nat)
    requires Planned(corpus, hash, units, links, forUnits, forLinks, work) && k < |links|
    ensures AboutLink(work, links[k], ItemOf(corpus, hash, BridgeTask(links[k], forLinks[k])))
  {
    var l, cs := links[k], forLinks[k];
    var w := ItemOf(corpus, hash, BridgeTask(l, cs));
    BridgeNeedsAll(corpus, hash, units, links, forUnits, forLinks, work, k);
    LinkPairs(corpus, hash, units, links, forUnits, forLinks, work, k);
    forall x ensures x in w.populations <==> exists v :: v in work && v.kind == Correspondence && v.scope == l.id && x in v.populations {
      assert x in w.populations <==> x in Elements(w.populations);
      TouchedByPairs(corpus, hash, units, links, forUnits, forLinks, work, l.id, cs, x);
    }
  }

  lemma PairPopulations(corpus: Corpus, hash: Name -> Id, scope: Id, c: Queue.Candidate, x: Id)
    ensures x in ItemOf(corpus, hash, EvidenceTask(scope, c)).populations <==> x == c.left || x == c.right
  {
    ListedPair(c.left, c.right);
  }

  lemma TouchedByPairs(
      corpus: Corpus, hash: Name -> Id, units: seq<Unit>, links: seq<Links.Link>, forUnits: seq<seq<Queue.Candidate>>,
      forLinks: seq<seq<Queue.Candidate>>, work: seq<WorkItem>, scope: Id, cs: seq<Queue.Candidate>, x: Id)
    requires Planned(corpus, hash, units, links, forUnits, forLinks, work) && PairsOfScope(Tasks(corpus, units, links, forUnits, forLinks), scope, cs)
    ensures x in Touched(cs) <==> exists v :: v in work && v.kind == Correspondence && v.scope == scope && x in v.populations
  {
    if x in Touched(cs) {
      var c :| c in cs && (x == c.left || x == c.right);
      var v := ItemOf(corpus, hash, EvidenceTask(scope, c));
      ScopeEvidence(corpus, hash, units, links, forUnits, forLinks, work, scope, cs, v);
      PairPopulations(corpus, hash, scope, c, x);
    }
    if v :| v in work && v.kind == Correspondence && v.scope == scope && x in v.populations {
      ScopeEvidence(corpus, hash, units, links, forUnits, forLinks, work, scope, cs, v);
      var c :| c in cs && v == ItemOf(corpus, hash, EvidenceTask(scope, c));
      PairPopulations(corpus, hash, scope, c, x);
    }
  }

  // --- the whole list ------------------------------------------------------------------------------------------

  /** Every motif of a represented source, unit, link and chosen pair has its work, and all work is one of these. */
  ghost predicate Accounts(
      corpus: Corpus, units: seq<Unit>, links: seq<Links.Link>, forUnits: seq<seq<Queue.Candidate>>,
      forLinks: seq<seq<Queue.Candidate>>, work: seq<WorkItem>)
    requires |forUnits| == |units| && |forLinks| == |links|
  {
    && (forall m :: m in corpus.motifs && Represented(units, m) ==> exists w :: w in work && AboutMotif(m, w))
    && (forall g :: 0 <= g < |units| ==> exists w :: w in work && AboutUnit(corpus, work, units[g], w))
    && (forall k :: 0 <= k < |links| ==> exists w :: w in work && AboutLink(work, links[k], w))
    && (forall g, c :: 0 <= g < |units| && c in forUnits[g] ==> exists w :: w in work && AboutPair(corpus.populations, units[g].id, c, w))
    && (forall k, c :: 0 <= k < |links| && c in forLinks[k] ==> exists w :: w in work && AboutPair(corpus.populations, links[k].id, c, w))
    && (forall w :: w in work ==> Accounted(corpus, units, links, forUnits, forLinks, work, w))
  }

  ghost predicate Represented(units: seq<Unit>, m: Motif) {
    m.source.Some? && exists u :: u in units && m.source.value in u.sources
  }

  ghost predicate Accounted(
      corpus: Corpus, units: seq<Unit>, links: seq<Links.Link>, forUnits: seq<seq<Queue.Candidate>>,
      forLinks: seq<seq<Queue.Candidate>>, work: seq<WorkItem>, w: WorkItem)
    requires |forUnits| == |units| && |forLinks| == |links|
  {
    match w.kind
    case SourceMotifs => exists m :: m in corpus.motifs && Represented(units, m) && AboutMotif(m, w)
    case Correspondence =>
      || (exists g, c :: 0 <= g < |units| && c in forUnits[g] && AboutPair(corpus.populations, units[g].id, c, w))
      || (exists k, c :: 0 <= k < |links| && c in forLinks[k] && AboutPair(corpus.populations, links[k].id, c, w))
    case NeighborhoodSynthesis => exists g :: 0 <= g < |units| && AboutUnit(corpus, work, units[g], w)
    case BridgeSynthesis => exists k :: 0 <= k < |links| && AboutLink(work, links[k], w)
  }

  /** The populations of the pairs chosen have sources. */
  ghost predicate PairsKnown(corpus: Corpus, chosen: seq<seq<Queue.Candidate>>) {
    forall g, c :: 0 <= g < |chosen| && c in chosen[g] ==> c.left in SourceMap(corpus.populations) && c.right in SourceMap(corpus.populations)
  }

  lemma ItemIsAccounted(
      corpus: Corpus, hash: Name -> Id, units: seq<Unit>, links: seq<Links.Link>, forUnits: seq<seq<Queue.Candidate>>,
      forLinks: seq<seq<Queue.Candidate>>, work: seq<WorkItem>, w: WorkItem)
    requires Planned(corpus, hash, units, links, forUnits, forLinks, work) && ValidCorpus(corpus) && PairsKnown(corpus, forUnits) && PairsKnown(corpus, forLinks) && w in work
    ensures Accounted(corpus, units, links, forUnits, forLinks, work, w)
  {
    var t := TaskOfItem(corpus, hash, units, links, forUnits, forLinks, work, w);
    PlannedTask(corpus, units, links, forUnits, forLinks, t);
    match t
    case MotifTask(m) =>
      MotifWorkPlanned(corpus, hash, units, links, forUnits, forLinks, work, w);
      MotifItemIs(corpus, hash, m);
      MotifIsRepresented(units, m);
    case EvidenceTask(scope, c) =>
      PairItemIs(corpus, hash, scope, c);
    case SynthesisTask(u, cs) =>
      var g :| 0 <= g < |units| && units[g] == u && forUnits[g] == cs;
      UnitItemIs(corpus, hash, units, links, forUnits, forLinks, work, g);
    case BridgeTask(l, cs) =>
      var k :| 0 <= k < |links| && links[k] == l && forLinks[k] == cs;
      LinkItemIs(corpus, hash, units, links, forUnits, forLinks, work, k);
  }

  lemma MotifIsRepresented(units: seq<Unit>, m: Motif)
    ensures Mapped(Links.UnitMap(units), m) <==> Represented(units, m)
  {
    Links.MappedSources(units);
    if m.source.Some? {
      SourcesAreSources(units, m.source.value);
      assert m.source.value in Links.UnitMap(units) <==> m.source.value in Elements(AllSources(units));
    }
  }

  /** The work of a plan is complete, and each item is about what it should be and needs what it should. */
  lemma PlannedWorkAccounts(
      corpus: Corpus, hash: Name -> Id, units: seq<Unit>, links: seq<Links.Link>, forUnits: seq<seq<Queue.Candidate>>,
      forLinks: seq<seq<Queue.Candidate>>, work: seq<WorkItem>)
    requires Planned(corpus, hash, units, links, forUnits, forLinks, work) && ValidCorpus(corpus) && PairsKnown(corpus, forUnits) && PairsKnown(corpus, forLinks)
    ensures Accounts(corpus, units, links, forUnits, forLinks, work)
  {
    forall w | w in work ensures Accounted(corpus, units, links, forUnits, forLinks, work, w) {
      ItemIsAccounted(corpus, hash, units, links, forUnits, forLinks, work, w);
    }
    forall m | m in corpus.motifs && Represented(units, m) ensures exists w :: w in work && AboutMotif(m, w) {
      MotifIsRepresented(units, m);
      PlannedTask(corpus, units, links, forUnits, forLinks, MotifTask(m));
      ItemIsPlanned(corpus, hash, units, links, forUnits, forLinks, work, MotifTask(m));
      MotifItemIs(corpus, hash, m);
    }
    forall g | 0 <= g < |units| ensures exists w :: w in work && AboutUnit(corpus, work, units[g], w) {
      SynthesisPlanned(corpus, hash, units, links, forUnits, forLinks, work, ItemOf(corpus, hash, SynthesisTask(units[g], forUnits[g])));
      UnitItemIs(corpus, hash, units, links, forUnits, forLinks, work, g);
    }
    forall k | 0 <= k < |links| ensures exists w :: w in work && AboutLink(work, links[k], w) {
      BridgePlanned(corpus, hash, units, links, forUnits, forLinks, work, ItemOf(corpus, hash, BridgeTask(links[k], forLinks[k])));
      LinkItemIs(corpus, hash, units, links, forUnits, forLinks, work, k);
    }
    forall g, c | 0 <= g < |units| && c in forUnits[g] ensures exists w :: w in work && AboutPair(corpus.populations, units[g].id, c, w) {
      UnitPairs(corpus, hash, units, links, forUnits, forLinks, work, g);
      ItemIsPlanned(corpus, hash, units, links, forUnits, forLinks, work, EvidenceTask(units[g].id, c));
      PairItemIs(corpus, hash, units[g].id, c);
    }
    forall k, c | 0 <= k < |links| && c in forLinks[k] ensures exists w :: w in work && AboutPair(corpus.populations, links[k].id, c, w) {
      LinkPairs(corpus, hash, units, links, forUnits, forLinks, work, k);
      ItemIsPlanned(corpus, hash, units, links, forUnits, forLinks, work, EvidenceTask(links[k].id, c));
      PairItemIs(corpus, hash, links[k].id, c);
    }
  }
}
