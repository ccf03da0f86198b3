/**
 The work items of an excavation plan: motifs of every source, correspondences of every
 scope, one synthesis for each unit and one bridge for each link, and the validator's
 rules for the list.
 */
module PlanWork {
  import opened Wrappers
  import opened Ordering
  import opened ExcavationUnits
  import opened WorkPlan
  import Links = ExcavationLinks
  import Queue = CandidateQueue

  /** What one work item is made for. */
  datatype Task =
    | MotifTask(motif: Motif)
    | EvidenceTask(scope: Id, pair: Queue.Candidate)
    | SynthesisTask(unit: Unit, chosen: seq<Queue.Candidate>)
    | BridgeTask(link: Links.Link, chosen: seq<Queue.Candidate>)

  function NameOf(t: Task): Name {
    match t
    case MotifTask(m) => MotifName(m.id)
    case EvidenceTask(scope, c) => CorrespondenceName(scope, c.left, c.right)
    case SynthesisTask(u, _) => SynthesisName(u.id)
    case BridgeTask(l, _) => BridgeName(l.id)
  }

  // --- the content of an item ----------------------------------------------------------------------

  predicate Less(a: int, b: int) {
    a < b
  }

  /** `sorted` of a list of ids, repetitions kept. */
  function Listed(xs: seq<Id>): (r: seq<Id>)
    ensures |r| == |xs|
  {
    SortBy(xs, Less)
  }

  lemma ListedPair(a: Id, b: Id)
    ensures Listed([a, b]) == if a <= b then [a, b] else [b, a]
  {
    var none: seq<Id> := [];
    assert [a, b][1..] == [b] && [b][1..] == none;
    assert SortBy(none, Less) == none && SortBy([b], Less) == Insert(b, none, Less) == [b];
    assert Insert(a, none, Less) == [a];
  }

  function SourceFor(sourceOf: map<Id, Id>, population: Id): Id {
    if population in sourceOf then sourceOf[population] else 0
  }

  function EvidenceIds(hash: Name -> Id, scope: Id, cs: seq<Queue.Candidate>): (r: seq<Id>)
    ensures |r| == |cs| && forall i :: 0 <= i < |cs| ==> r[i] == hash(NameOf(EvidenceTask(scope, cs[i])))
  {
    seq(|cs|, i requires 0 <= i < |cs| => hash(CorrespondenceName(scope, cs[i].left, cs[i].right)))
  }

  function MotifIds(motifs: seq<Motif>, hash: Name -> Id, source: Id): (r: seq<Id>)
    ensures forall d :: d in r <==> exists m :: m in motifs && m.source == Some(source) && d == hash(MotifName(m.id))
  {
    if motifs == [] then []
    else
      var m := motifs[|motifs| - 1];
      assert motifs == motifs[..|motifs| - 1] + [m];
      MotifIds(motifs[..|motifs| - 1], hash, source) + (if m.source == Some(source) then [hash(MotifName(m.id))] else [])
  }

  function MotifIdsOf(motifs: seq<Motif>, hash: Name -> Id, sources: seq<Id>): seq<Id> {
    if sources == [] then []
    else MotifIdsOf(motifs, hash, sources[..|sources| - 1]) + MotifIds(motifs, hash, sources[|sources| - 1])
  }

  lemma {:induction false} MotifsOfSources(motifs: seq<Motif>, hash: Name -> Id, sources: seq<Id>, d: Id)
    ensures d in MotifIdsOf(motifs, hash, sources) <==> exists s :: s in sources && d in MotifIds(motifs, hash, s)
  {
    if sources != [] {
      var init, last := sources[..|sources| - 1], sources[|sources| - 1];
      assert sources == init + [last];
      MotifsOfSources(motifs, hash, init, d);
      assert last in sources;
    }
  }

  function PopulationsIn(populations: seq<Population>, sources: seq<Id>): (r: seq<Id>)
    ensures |r| == PopulationCount(populations, sources)
  {
    if sources == [] then []
    else PopulationsIn(populations, sources[..|sources| - 1]) + At(populations, sources[|sources| - 1])
  }

  lemma {:induction false} PopulationsOfSources(populations: seq<Population>, sources: seq<Id>, x: Id)
    ensures x in PopulationsIn(populations, sources) <==> exists s :: s in sources && x in At(populations, s)
  {
    if sources != [] {
      var init, last := sources[..|sources| - 1], sources[|sources| - 1];
      assert sources == init + [last];
      PopulationsOfSources(populations, init, x);
      assert last in sources;
    }
  }

  function Touched(cs: seq<Queue.Candidate>): set<Id> {
    (set c | c in cs :: c.left) + (set c | c in cs :: c.right)
  }

  function MotifItem(hash: Name -> Id, m: Motif): (w: WorkItem)
    ensures w.stage == StageOf(w.kind) == 1 && w.dependsOn == []
  {
    var source := if m.source.Some? then m.source.value else 0;
    WorkItem(hash(MotifName(m.id)), SourceMotifs, 1, source, [source], if m.population.Some? then [m.population.value] else [], [])
  }

  function EvidenceItem(hash: Name -> Id, sourceOf: map<Id, Id>, scope: Id, c: Queue.Candidate): (w: WorkItem)
    ensures w.stage == StageOf(w.kind) == 2 && w.dependsOn == []
  {
    WorkItem(hash(CorrespondenceName(scope, c.left, c.right)), Correspondence, 2, scope,
             SortedSet({SourceFor(sourceOf, c.left), SourceFor(sourceOf, c.right)}), Listed([c.left, c.right]), [])
  }

  function SynthesisItem(corpus: Corpus, hash: Name -> Id, u: Unit, cs: seq<Queue.Candidate>): (w: WorkItem)
    ensures w.stage == StageOf(w.kind) == 3
  {
    WorkItem(hash(SynthesisName(u.id)), NeighborhoodSynthesis, 3, u.id, SortedSet(Elements(u.sources)),
             Listed(PopulationsIn(corpus.populations, u.sources)),
             Listed(EvidenceIds(hash, u.id, cs) + MotifIdsOf(corpus.motifs, hash, u.sources)))
  }

  function BridgeItem(hash: Name -> Id, l: Links.Link, cs: seq<Queue.Candidate>): (w: WorkItem)
    ensures w.stage == StageOf(w.kind) == 4
  {
    WorkItem(hash(BridgeName(l.id)), BridgeSynthesis, 4, l.id, SortedSet({l.edge.left, l.edge.right}), SortedSet(Touched(cs)),
             Listed([hash(SynthesisName(l.leftUnit)), hash(SynthesisName(l.rightUnit))] + EvidenceIds(hash, l.id, cs)))
  }

  function StageFor(t: Task): int {
    match t
    case MotifTask(_) => 1
    case EvidenceTask(_, _) => 2
    case SynthesisTask(_, _) => 3
    case BridgeTask(_, _) => 4
  }

  function ItemOf(corpus: Corpus, hash: Name -> Id, t: Task): (w: WorkItem)
    ensures w.id == hash(NameOf(t)) && w.stage == StageOf(w.kind) == StageFor(t)
    ensures t.MotifTask? || t.EvidenceTask? ==> w.dependsOn == []
  {
    match t
    case MotifTask(m) => MotifItem(hash, m)
    case EvidenceTask(scope, c) => EvidenceItem(hash, SourceMap(corpus.populations), scope, c)
    case SynthesisTask(u, cs) => SynthesisItem(corpus, hash, u, cs)
    case BridgeTask(l, cs) => BridgeItem(hash, l, cs)
  }

  function Each<A, B>(f: A -> B, xs: seq<A>): (r: seq<B>)
    ensures |r| == |xs| && forall i :: 0 <= i < |xs| ==> r[i] == f(xs[i])
  {
    seq(|xs|, i requires 0 <= i < |xs| => f(xs[i]))
  }

  lemma EachConcat<A, B>(f: A -> B, a: seq<A>, b: seq<A>)
    ensures Each(f, a + b) == Each(f, a) + Each(f, b)
  {
  }

  function Items(corpus: Corpus, hash: Name -> Id, tasks: seq<Task>): (r: seq<WorkItem>)
    ensures |r| == |tasks| && forall i :: 0 <= i < |tasks| ==> r[i] == ItemOf(corpus, hash, tasks[i])
  {
    Each(t => ItemOf(corpus, hash, t), tasks)
  }

  // --- the tasks of a plan -----------------------------------------------------------------------------

  predicate Mapped(unitOf: map<Id, Id>, m: Motif) {
    m.source.Some? && m.source.value in unitOf
  }

  function MotifTasks(motifs: seq<Motif>, unitOf: map<Id, Id>): (r: seq<Task>)
    ensures forall t :: t in r <==> t.MotifTask? && t.motif in motifs && Mapped(unitOf, t.motif)
  {
    if motifs == [] then []
    else
      var m := motifs[|motifs| - 1];
      assert motifs == motifs[..|motifs| - 1] + [m];
      MotifTasks(motifs[..|motifs| - 1], unitOf) + (if Mapped(unitOf, m) then [MotifTask(m)] else [])
  }

  function ScopeTasks(scope: Id, cs: seq<Queue.Candidate>): (r: seq<Task>)
    ensures |r| == |cs| && forall i :: 0 <= i < |cs| ==> r[i] == EvidenceTask(scope, cs[i])
  {
    seq(|cs|, i requires 0 <= i < |cs| => EvidenceTask(scope, cs[i]))
  }

  function UnitBlock(u: Unit, cs: seq<Queue.Candidate>): seq<Task> {
    ScopeTasks(u.id, cs) + [SynthesisTask(u, cs)]
  }

  function LinkBlock(l: Links.Link, cs: seq<Queue.Candidate>): seq<Task> {
    ScopeTasks(l.id, cs) + [BridgeTask(l, cs)]
  }

  function Flatten<T>(blocks: seq<seq<T>>): seq<T> {
    if blocks == [] then [] else Flatten(blocks[..|blocks| - 1]) + blocks[|blocks| - 1]
  }

  lemma {:induction false} FlattenHas<T>(blocks: seq<seq<T>>, t: T)
    ensures t in Flatten(blocks) <==> exists b :: b in blocks && t in b
  {
    if blocks != [] {
      var init, last := blocks[..|blocks| - 1], blocks[|blocks| - 1];
      assert blocks == init + [last];
      FlattenHas(init, t);
      assert last in blocks;
    }
  }

  function UnitBlocks(units: seq<Unit>, chosen: seq<seq<Queue.Candidate>>): (r: seq<seq<Task>>)
    requires |units| == |chosen|
    ensures |r| == |units| && forall g :: 0 <= g < |units| ==> r[g] == UnitBlock(units[g], chosen[g])
  {
    seq(|units|, g requires 0 <= g < |units| => UnitBlock(units[g], chosen[g]))
  }

  function LinkBlocks(links: seq<Links.Link>, chosen: seq<seq<Queue.Candidate>>): (r: seq<seq<Task>>)
    requires |links| == |chosen|
    ensures |r| == |links| && forall k :: 0 <= k < |links| ==> r[k] == LinkBlock(links[k], chosen[k])
  {
    seq(|links|, k requires 0 <= k < |links| => LinkBlock(links[k], chosen[k]))
  }

  function UnitTasks(units: seq<Unit>, chosen: seq<seq<Queue.Candidate>>): seq<Task>
    requires |units| == |chosen|
  {
    Flatten(UnitBlocks(units, chosen))
  }

  function LinkTasks(links: seq<Links.Link>, chosen: seq<seq<Queue.Candidate>>): seq<Task>
    requires |links| == |chosen|
  {
    Flatten(LinkBlocks(links, chosen))
  }

  // --- all tasks together, each with a name of its own ------------------------------------------------------

  function Tasks(corpus: Corpus, units: seq<Unit>, links: seq<Links.Link>, forUnits: seq<seq<Queue.Candidate>>, forLinks: seq<seq<Queue.Candidate>>): seq<Task>
    requires |units| == |forUnits| && |links| == |forLinks|
  {
    MotifTasks(corpus.motifs, Links.UnitMap(units)) + UnitTasks(units, forUnits) + LinkTasks(links, forLinks)
  }

  /** No two chosen pairs name the same populations in the same order. */
  ghost predicate PairsDistinct(cs: seq<Queue.Candidate>) {
    forall i, j :: 0 <= i < j < |cs| ==> cs[i].left != cs[j].left || cs[i].right != cs[j].right
  }

  /** The scope a task belongs to. */
  function ScopeOf(t: Task): Option<Id> {
    match t
    case MotifTask(_) => None
    case EvidenceTask(scope, _) => Some(scope)
    case SynthesisTask(u, _) => Some(u.id)
    case BridgeTask(l, _) => Some(l.id)
  }

  ghost predicate NamesDistinct(tasks: seq<Task>) {
    forall i, j :: 0 <= i < j < |tasks| ==> NameOf(tasks[i]) != NameOf(tasks[j])
  }

  lemma SameNameSameScope(a: Task, b: Task)
    requires NameOf(a) == NameOf(b)
    ensures ScopeOf(a) == ScopeOf(b)
  {
  }

  lemma NamesConcat(a: seq<Task>, b: seq<Task>)
    requires NamesDistinct(a) && NamesDistinct(b)
    requires forall x, y :: x in a && y in b ==> ScopeOf(x) != ScopeOf(y)
    ensures NamesDistinct(a + b)
  {
    var all := a + b;
    forall i, j | 0 <= i < j < |all| ensures NameOf(all[i]) != NameOf(all[j]) {
      if i < |a| <= j {
        assert all[i] in a && all[j] in b;
        if NameOf(all[i]) == NameOf(all[j]) {
          SameNameSameScope(all[i], all[j]);
        }
      }
    }
  }

  lemma BlockDistinct(scope: Id, cs: seq<Queue.Candidate>, last: Task)
    requires PairsDistinct(cs) && (last.SynthesisTask? || last.BridgeTask?) && ScopeOf(last) == Some(scope)
    ensures NamesDistinct(ScopeTasks(scope, cs) + [last])
    ensures forall t :: t in ScopeTasks(scope, cs) + [last] ==> ScopeOf(t) == Some(scope)
  {
  }

  ghost predicate BlocksOf(blocks: seq<seq<Task>>, scopes: seq<Id>) {
    && |blocks| == |scopes| && Distinct(scopes)
    && forall g :: 0 <= g < |blocks| ==> BlockOf(blocks[g], scopes[g])
  }

  ghost predicate BlockOf(block: seq<Task>, scope: Id) {
    NamesDistinct(block) && forall t :: t in block ==> ScopeOf(t) == Some(scope)
  }

  lemma {:induction false} BlocksDistinct(blocks: seq<seq<Task>>, scopes: seq<Id>)
    requires BlocksOf(blocks, scopes)
    ensures NamesDistinct(Flatten(blocks))
    ensures forall t :: t in Flatten(blocks) ==> exists s :: s in scopes && ScopeOf(t) == Some(s)
  {
    if blocks != [] {
      var last := |blocks| - 1;
      var before, block := Flatten(blocks[..last]), blocks[last];
      BlocksDistinct(blocks[..last], scopes[..last]);
      assert BlockOf(blocks[last], scopes[last]);
      forall x, y | x in before && y in block ensures ScopeOf(x) != ScopeOf(y) {
        var s :| s in scopes[..last] && ScopeOf(x) == Some(s);
      }
      NamesConcat(before, block);
      assert scopes[last] in scopes && forall s :: s in scopes[..last] ==> s in scopes;
    }
  }

  lemma UnitTasksDistinct(units: seq<Unit>, chosen: seq<seq<Queue.Candidate>>)
    requires |units| == |chosen| && UnitIdsDistinct(units) && forall g :: 0 <= g < |units| ==> PairsDistinct(chosen[g])
    ensures NamesDistinct(UnitTasks(units, chosen))
    ensures forall t :: t in UnitTasks(units, chosen) ==> exists u :: u in units && ScopeOf(t) == Some(u.id)
  {
    var ids := seq(|units|, g requires 0 <= g < |units| => units[g].id);
    forall g | 0 <= g < |units| ensures BlockOf(UnitBlocks(units, chosen)[g], ids[g]) {
      BlockDistinct(units[g].id, chosen[g], SynthesisTask(units[g], chosen[g]));
    }
    BlocksDistinct(UnitBlocks(units, chosen), ids);
    forall t | t in UnitTasks(units, chosen) ensures exists u :: u in units && ScopeOf(t) == Some(u.id) {
      var g :| 0 <= g < |ids| && ScopeOf(t) == Some(ids[g]);
      assert units[g] in units;
    }
  }

  lemma LinkTasksDistinct(links: seq<Links.Link>, chosen: seq<seq<Queue.Candidate>>)
    requires |links| == |chosen| && Links.LinkIdsDistinct(links) && forall k :: 0 <= k < |links| ==> PairsDistinct(chosen[k])
    ensures NamesDistinct(LinkTasks(links, chosen))
    ensures forall t :: t in LinkTasks(links, chosen) ==> exists l :: l in links && ScopeOf(t) == Some(l.id)
  {
    var ids := seq(|links|, k requires 0 <= k < |links| => links[k].id);
    forall k | 0 <= k < |links| ensures BlockOf(LinkBlocks(links, chosen)[k], ids[k]) {
      BlockDistinct(links[k].id, chosen[k], BridgeTask(links[k], chosen[k]));
    }
    BlocksDistinct(LinkBlocks(links, chosen), ids);
    forall t | t in LinkTasks(links, chosen) ensures exists l :: l in links && ScopeOf(t) == Some(l.id) {
      var k :| 0 <= k < |ids| && ScopeOf(t) == Some(ids[k]);
      assert links[k] in links;
    }
  }

  lemma {:induction false} MotifTasksDistinct(motifs: seq<Motif>, unitOf: map<Id, Id>)
    requires forall i, j :: 0 <= i < j < |motifs| ==> motifs[i].id != motifs[j].id
    ensures NamesDistinct(MotifTasks(motifs, unitOf))
  {
    if motifs != [] {
      var init, m := motifs[..|motifs| - 1], motifs[|motifs| - 1];
      var before := MotifTasks(init, unitOf);
      MotifTasksDistinct(init, unitOf);
      forall i | 0 <= i < |before| ensures NameOf(before[i]) != MotifName(m.id) {
        assert before[i] in before;
        var k :| 0 <= k < |init| && init[k] == before[i].motif;
        assert motifs[k].id != motifs[|motifs| - 1].id;
      }
    }
  }

  /** A unit's tasks are its evidence and one synthesis. */
  lemma UnitTasksHave(units: seq<Unit>, chosen: seq<seq<Queue.Candidate>>, t: Task)
    requires |units| == |chosen|
    ensures t in UnitTasks(units, chosen) <==> exists g :: 0 <= g < |units| && t in UnitBlock(units[g], chosen[g])
  {
    var blocks := UnitBlocks(units, chosen);
    FlattenHas(blocks, t);
    if t in UnitTasks(units, chosen) {
      var g :| 0 <= g < |blocks| && t in blocks[g];
      assert t in UnitBlock(units[g], chosen[g]);
    }
    if g :| 0 <= g < |units| && t in UnitBlock(units[g], chosen[g]) {
      assert blocks[g] in blocks;
    }
  }

  lemma LinkTasksHave(links: seq<Links.Link>, chosen: seq<seq<Queue.Candidate>>, t: Task)
    requires |links| == |chosen|
    ensures t in LinkTasks(links, chosen) <==> exists k :: 0 <= k < |links| && t in LinkBlock(links[k], chosen[k])
  {
    var blocks := LinkBlocks(links, chosen);
    FlattenHas(blocks, t);
    if t in LinkTasks(links, chosen) {
      var k :| 0 <= k < |blocks| && t in blocks[k];
      assert t in LinkBlock(links[k], chosen[k]);
    }
    if k :| 0 <= k < |links| && t in LinkBlock(links[k], chosen[k]) {
      assert blocks[k] in blocks;
    }
  }

  // --- the validator's rules -----------------------------------------------------------------------------

  ghost predicate EarlierIn(items: seq<WorkItem>, d: Id, stage: int) {
    exists v :: v in items && v.id == d && v.stage < stage
  }

  ghost predicate DepsEarlier(items: seq<WorkItem>, w: WorkItem) {
    forall d :: d in w.dependsOn ==> EarlierIn(items, d, w.stage)
  }

  ghost predicate ValidWork(items: seq<WorkItem>) {
    && items != [] && UniqueIds(items)
    && (forall w :: w in items ==> w.stage == StageOf(w.kind))
    && (forall w :: w in items ==> DepsEarlier(items, w))
  }

  datatype WorkError = NoWork | DuplicateWork | BadStage | UnknownDependency | NotPrior

  method IndexWork(items: seq<WorkItem>) returns (r: Option<WorkError>, index: Index)
    ensures r.None? <==> UniqueIds(items) && forall w :: w in items ==> w.stage == StageOf(w.kind)
    ensures r.None? ==> IndexOf(items, index)
  {
    index := map[];
    for i := 0 to |items|
      invariant UniqueIds(items[..i]) && IndexOf(items[..i], index)
      invariant forall k :: 0 <= k < i ==> items[k].stage == StageOf(items[k].kind)
    {
      assert items[i] in items;
      if items[i].id in index {
        var k :| 0 <= k < i && items[..i][k].id == items[i].id;
        assert items[k].id == items[i].id;
        return Some(DuplicateWork), index;
      }
      if items[i].stage != StageOf(items[i].kind) {
        return Some(BadStage), index;
      }
      index := index[items[i].id := items[i]];
      assert items[..i + 1] == items[..i] + [items[i]];
    }
    assert items[..|items|] == items;
    r := None;
  }

  method CheckDependencies(items: seq<WorkItem>, index: Index, w: WorkItem) returns (r: Option<WorkError>)
    requires UniqueIds(items) && IndexOf(items, index)
    ensures r.None? <==> DepsEarlier(items, w)
  {
    for k := 0 to |w.dependsOn|
      invariant forall d :: d in w.dependsOn[..k] ==> EarlierIn(items, d, w.stage)
    {
      var d := w.dependsOn[k];
      assert d in w.dependsOn;
      assert w.dependsOn[..k + 1] == w.dependsOn[..k] + [d];
      DependencyLookup(items, index, d, w.stage);
      if d !in index {
        return Some(UnknownDependency);
      }
      if index[d].stage >= w.stage {
        return Some(NotPrior);
      }
    }
    assert w.dependsOn[..|w.dependsOn|] == w.dependsOn;
    return None;
  }

  lemma DependencyLookup(items: seq<WorkItem>, index: Index, d: Id, stage: int)
    requires UniqueIds(items) && IndexOf(items, index)
    ensures EarlierIn(items, d, stage) <==> d in index && index[d].stage < stage
  {
    if d in index {
      var i :| 0 <= i < |items| && items[i].id == d;
      assert items[i] in items;
    }
    if EarlierIn(items, d, stage) {
      var v :| v in items && v.id == d && v.stage < stage;
      var j :| 0 <= j < |items| && items[j] == v;
      assert items[j].id in index;
    }
  }

  method ValidateWork(items: seq<WorkItem>) returns (r: Option<WorkError>)
    ensures r.None? <==> ValidWork(items)
  {
    if items == [] {
      return Some(NoWork);
    }
    var index;
    r, index := IndexWork(items);
    if r.Some? {
      return;
    }
    for i := 0 to |items|
      invariant r.None? && forall w :: w in items[..i] ==> DepsEarlier(items, w)
    {
      assert items[i] in items;
      assert items[..i + 1] == items[..i] + [items[i]];
      r := CheckDependencies(items, index, items[i]);
      if r.Some? {
        return;
      }
    }
    assert items[..|items|] == items;
  }

  /** Accepted work keeps the stage rule that selection and execution rely on. */
  lemma ValidWorkKeepsStageRule(items: seq<WorkItem>, index: Index)
    requires ValidWork(items) && IndexOf(items, index)
    ensures StageRule(index)
  {
    forall w, d | DependsOn(index, w, d) ensures d in index && index[d].stage < index[w].stage {
      var i :| 0 <= i < |items| && items[i].id == w;
      assert items[i] in items && DepsEarlier(items, items[i]);
      DependencyLookup(items, index, d, items[i].stage);
    }
  }

  // --- planned work is valid --------------------------------------------------------------------------------

  ghost predicate Supported(corpus: Corpus, tasks: seq<Task>, t: Task) {
    match t
    case SynthesisTask(u, cs) =>
      && (forall c :: c in cs ==> EvidenceTask(u.id, c) in tasks)
      && (forall m :: m in corpus.motifs && m.source.Some? && m.source.value in u.sources ==> MotifTask(m) in tasks)
    case BridgeTask(l, cs) =>
      && (forall c :: c in cs ==> EvidenceTask(l.id, c) in tasks)
      && (exists s :: s in tasks && s.SynthesisTask? && s.unit.id == l.leftUnit)
      && (exists s :: s in tasks && s.SynthesisTask? && s.unit.id == l.rightUnit)
    case _ => true
  }

  lemma ListedSame(xs: seq<Id>)
    ensures forall x :: x in Listed(xs) <==> x in xs
  {
    SortKeeps(xs, Less);
  }

  lemma TaskIsEarlier(corpus: Corpus, hash: Name -> Id, tasks: seq<Task>, t: Task, stage: int)
    requires t in tasks && ItemOf(corpus, hash, t).stage < stage
    ensures EarlierIn(Items(corpus, hash, tasks), hash(NameOf(t)), stage)
  {
    var i :| 0 <= i < |tasks| && tasks[i] == t;
    assert Items(corpus, hash, tasks)[i] in Items(corpus, hash, tasks);
  }

  lemma EvidenceIsEarlier(corpus: Corpus, hash: Name -> Id, tasks: seq<Task>, scope: Id, cs: seq<Queue.Candidate>, d: Id, stage: int)
    requires d in EvidenceIds(hash, scope, cs) && stage > 2
    requires forall c :: c in cs ==> EvidenceTask(scope, c) in tasks
    ensures EarlierIn(Items(corpus, hash, tasks), d, stage)
  {
    var i :| 0 <= i < |cs| && EvidenceIds(hash, scope, cs)[i] == d;
    TaskIsEarlier(corpus, hash, tasks, EvidenceTask(scope, cs[i]), stage);
  }

  lemma SynthesisDependencies(corpus: Corpus, hash: Name -> Id, tasks: seq<Task>, t: Task, d: Id)
    requires t.SynthesisTask? && Supported(corpus, tasks, t) && d in ItemOf(corpus, hash, t).dependsOn
    ensures EarlierIn(Items(corpus, hash, tasks), d, 3)
  {
    var evidence, motifs := EvidenceIds(hash, t.unit.id, t.chosen), MotifIdsOf(corpus.motifs, hash, t.unit.sources);
    ListedSame(evidence + motifs);
    if d in evidence {
      EvidenceIsEarlier(corpus, hash, tasks, t.unit.id, t.chosen, d, 3);
    } else {
      MotifsOfSources(corpus.motifs, hash, t.unit.sources, d);
      var s :| s in t.unit.sources && d in MotifIds(corpus.motifs, hash, s);
      var m :| m in corpus.motifs && m.source == Some(s) && d == hash(MotifName(m.id));
      TaskIsEarlier(corpus, hash, tasks, MotifTask(m), 3);
    }
  }

  lemma BridgeDependencies(corpus: Corpus, hash: Name -> Id, tasks: seq<Task>, t: Task, d: Id)
    requires t.BridgeTask? && Supported(corpus, tasks, t) && d in ItemOf(corpus, hash, t).dependsOn
    ensures EarlierIn(Items(corpus, hash, tasks), d, 4)
  {
    var both, evidence := [hash(SynthesisName(t.link.leftUnit)), hash(SynthesisName(t.link.rightUnit))], EvidenceIds(hash, t.link.id, t.chosen);
    ListedSame(both + evidence);
    if d in evidence {
      EvidenceIsEarlier(corpus, hash, tasks, t.link.id, t.chosen, d, 4);
    } else {
      assert d == both[0] || d == both[1];
      var unitId := if d == both[0] then t.link.leftUnit else t.link.rightUnit;
      var s :| s in tasks && s.SynthesisTask? && s.unit.id == unitId;
      TaskIsEarlier(corpus, hash, tasks, s, 4);
    }
  }

  lemma ItemIsSupported(corpus: Corpus, hash: Name -> Id, tasks: seq<Task>, t: Task, w: WorkItem, d: Id)
    requires Supported(corpus, tasks, t) && w == ItemOf(corpus, hash, t) && d in w.dependsOn
    ensures EarlierIn(Items(corpus, hash, tasks), d, w.stage)
  {
    if t.SynthesisTask? {
      SynthesisDependencies(corpus, hash, tasks, t, d);
    } else if t.BridgeTask? {
      BridgeDependencies(corpus, hash, tasks, t, d);
    }
  }

  lemma ItemsHaveUniqueIds(corpus: Corpus, hash: Name -> Id, tasks: seq<Task>)
    requires NamesDistinct(tasks) && Injective(hash)
    ensures UniqueIds(Items(corpus, hash, tasks))
  {
    var items := Items(corpus, hash, tasks);
    forall i, j | 0 <= i < j < |items| ensures items[i].id != items[j].id {
      assert items[i].id == hash(NameOf(tasks[i])) && items[j].id == hash(NameOf(tasks[j]));
    }
  }

  /** Distinct, supported tasks make work the validator accepts, in whatever order it is listed. */
  lemma PlannedWorkIsValid(corpus: Corpus, hash: Name -> Id, tasks: seq<Task>)
    requires tasks != [] && NamesDistinct(tasks) && Injective(hash)
    requires forall t :: t in tasks ==> Supported(corpus, tasks, t)
    ensures ValidWork(Items(corpus, hash, tasks))
  {
    var items := Items(corpus, hash, tasks);
    ItemsHaveUniqueIds(corpus, hash, tasks);
    forall w | w in items ensures w.stage == StageOf(w.kind) && DepsEarlier(items, w) {
      var i :| 0 <= i < |items| && items[i] == w;
      assert tasks[i] in tasks;
      forall d | d in w.dependsOn ensures EarlierIn(items, d, w.stage) {
        ItemIsSupported(corpus, hash, tasks, tasks[i], w, d);
      }
    }
  }

  predicate WorkBefore(a: WorkItem, b: WorkItem) {
    a.stage < b.stage || (a.stage == b.stage && a.id < b.id)
  }

  /** Earlier stages first, and within a stage the lesser ids. */
  ghost predicate WorkListed(items: seq<WorkItem>) {
    forall i, j :: 0 <= i < j < |items| ==> items[i].stage < items[j].stage || (items[i].stage == items[j].stage && items[i].id < items[j].id)
  }

  lemma ReorderedWorkIsValid(items: seq<WorkItem>)
    requires ValidWork(items)
    ensures ValidWork(SortBy(items, WorkBefore)) && WorkListed(SortBy(items, WorkBefore))
    ensures forall w :: w in SortBy(items, WorkBefore) <==> w in items
  {
    var sorted := SortBy(items, WorkBefore);
    assert StrictWeak(WorkBefore);
    assert Distinct(items);
    SortDistinct(items, WorkBefore);
    SortKeeps(items, WorkBefore);
    forall i, j | 0 <= i < j < |sorted| ensures sorted[i].id != sorted[j].id {
      assert sorted[i] in items && sorted[j] in items && sorted[i] != sorted[j];
    }
    forall i, j | 0 <= i < j < |sorted| ensures !WorkBefore(sorted[j], sorted[i]) {
    }
    forall w, d | w in sorted && d in w.dependsOn ensures EarlierIn(sorted, d, w.stage) {
      assert DepsEarlier(items, w);
      var v :| v in items && v.id == d && v.stage < w.stage;
      assert v in sorted;
    }
  }
}
