/**
 Selecting work: the requested targets and everything they depend on. The depth-first
 search is proved to return the least dependency closure, and to refuse exactly when a
 cycle or an unknown id can be reached.
 */
module SelectWork {
  import opened Wrappers
  import opened Ordering
  import opened WorkPlan

  datatype SelectError =
    | DuplicateWork | OutsidePlan | UnitNotFoundOnce | LinkNotFoundOnce | NothingRequested | DependencyCycle | UnknownDependency

  ghost predicate OnCycle(plan: Index, c: Id) {
    exists d :: DependsOn(plan, c, d) && Reachable(plan, d, c)
  }

  /** Following dependencies can leave the plan or run into a cycle. */
  ghost predicate Broken(plan: Index, w: Id) {
    exists c :: Reachable(plan, w, c) && (c !in plan || OnCycle(plan, c))
  }

  /** Dependencies come before what depends on them. */
  ghost predicate Topological(plan: Index, order: seq<Id>) {
    && Distinct(order)
    && forall i: nat :: i < |order| ==> order[i] in plan && EarlierDeps(plan, order, i)
  }

  ghost predicate EarlierDeps(plan: Index, order: seq<Id>, i: nat)
    requires i < |order|
  {
    forall d :: DependsOn(plan, order[i], d) ==> d in order[..i]
  }

  lemma TopologicalMore(plan: Index, order: seq<Id>, w: Id)
    requires Topological(plan, order) && w in plan && w !in order
    requires forall d :: DependsOn(plan, w, d) ==> d in order
    ensures Topological(plan, order + [w])
  {
    DistinctMore(order, w);
    var more := order + [w];
    forall i: nat | i < |more| ensures more[i] in plan && EarlierDeps(plan, more, i) {
      if i < |order| {
        assert EarlierDeps(plan, order, i) && more[..i] == order[..i];
      } else {
        assert more[..i] == order;
      }
    }
  }

  /** What a member of a topological list reaches stands no later in the list. */
  lemma {:induction false} ReachesEarlier(plan: Index, order: seq<Id>, path: seq<Id>, i: nat) returns (j: nat)
    requires Topological(plan, order) && i < |order| && path != [] && path[0] == order[i] && IsChain(plan, path)
    ensures j <= i && order[j] == path[|path| - 1]
    decreases |path|
  {
    if |path| == 1 {
      j := i;
    } else {
      assert EarlierDeps(plan, order, i) && DependsOn(plan, path[0], path[1]);
      var k: nat :| k < i && order[k] == path[1];
      assert IsChain(plan, path[1..]) by {
        forall a, b | 0 <= a && b == a + 1 < |path[1..]| ensures DependsOn(plan, path[1..][a], path[1..][b]) {
          assert DependsOn(plan, path[a + 1], path[b + 1]);
        }
      }
      j := ReachesEarlier(plan, order, path[1..], k);
    }
  }

  lemma ListedIsNotBroken(plan: Index, order: seq<Id>, w: Id)
    requires Topological(plan, order) && w in order
    ensures !Broken(plan, w)
    ensures forall c :: Reachable(plan, w, c) ==> c in order
  {
    var i: nat :| i < |order| && order[i] == w;
    forall c | Reachable(plan, w, c) ensures c in order && c in plan && !OnCycle(plan, c) {
      var path :| Leads(plan, path, w, c);
      var j := ReachesEarlier(plan, order, path, i);
      NotOnCycle(plan, order, j);
    }
  }

  lemma NotOnCycle(plan: Index, order: seq<Id>, j: nat)
    requires Topological(plan, order) && j < |order|
    ensures order[j] in plan && !OnCycle(plan, order[j])
  {
    forall d | DependsOn(plan, order[j], d) ensures !Reachable(plan, d, order[j]) {
      assert EarlierDeps(plan, order, j);
      var k: nat :| k < j && order[k] == d;
      forall path | path != [] && path[0] == d && IsChain(plan, path) ensures path[|path| - 1] != order[j] {
        var m := ReachesEarlier(plan, order, path, k);
      }
    }
  }

  /** The search added only work reachable from `w`, and kept the list topological. */
  ghost predicate Extends(plan: Index, w: Id, order: seq<Id>, longer: seq<Id>) {
    && order <= longer && Topological(plan, longer)
    && forall x :: x in longer && x !in order ==> Reachable(plan, w, x)
  }

  /** The nested search: adds the work and its dependencies, dependencies first. */
  method AddWithDependencies(plan: Index, w: Id, path: set<Id>, selected: set<Id>, ghost order: seq<Id>)
    returns (error: Option<SelectError>, after: set<Id>, ghost longer: seq<Id>)
    requires w in plan && path <= plan.Keys
    requires Topological(plan, order) && Elements(order) == selected
    ensures Extends(plan, w, order, longer) && Elements(longer) == after
    ensures error.None? ==> w in longer
    ensures error.Some? ==> Broken(plan, w) || exists a :: a in path && Reachable(plan, w, a)
    decreases |plan.Keys - path|
  {
    after, longer := selected, order;
    ReachSelf(plan, w);
    if w in selected {
      return None, after, longer;
    }
    if w in path {
      return Some(DependencyCycle), after, longer;
    }
    SmallerSet(plan.Keys - (path + {w}), plan.Keys - path, w);
    var deps := plan[w].dependsOn;
    for i := 0 to |deps|
      invariant Extends(plan, w, order, longer) && Elements(longer) == after
      invariant forall d :: d in deps[..i] ==> d in longer
    {
      var d := deps[i];
      assert DependsOn(plan, w, d);
      if d !in plan {
        ReachSelf(plan, d);
        ReachStep(plan, w, d, d);
        return Some(UnknownDependency), after, longer;
      }
      ghost var was := longer;
      error, after, longer := AddWithDependencies(plan, d, path + {w}, after, longer);
      forall x | Reachable(plan, d, x) ensures Reachable(plan, w, x) {
        ReachStep(plan, w, d, x);
      }
      if error.Some? {
        FailureSpreads(plan, w, d, path);
        return;
      }
      assert deps[..i + 1] == deps[..i] + [d];
    }
    assert deps[..|deps|] == deps;
    if w in after {
      ghost var k: nat :| k < |longer| && longer[k] == w;
    } else {
      TopologicalMore(plan, longer, w);
    }
    after := after + {w};
    longer := if w in longer then longer else longer + [w];
    error := None;
  }

  lemma FailureSpreads(plan: Index, w: Id, d: Id, path: set<Id>)
    requires DependsOn(plan, w, d)
    requires Broken(plan, d) || exists a :: a in path + {w} && Reachable(plan, d, a)
    ensures Broken(plan, w) || exists a :: a in path && Reachable(plan, w, a)
  {
    if a :| a in path + {w} && Reachable(plan, d, a) {
      if a == w {
        ReachSelf(plan, w);
        assert OnCycle(plan, w);
      } else {
        ReachStep(plan, w, d, a);
      }
    } else {
      var c :| Reachable(plan, d, c) && (c !in plan || OnCycle(plan, c));
      ReachStep(plan, w, d, c);
    }
  }

  // --- targets ----------------------------------------------------------------------------------

  datatype Request = Request(workIds: seq<Id>, unitIds: seq<Id>, linkIds: seq<Id>, allWork: bool)

  function Matches(plan: Index, kind: Kind, scope: Id): set<Id> {
    set w | w in plan && plan[w].kind == kind && plan[w].scope == scope
  }

  /** The item of this kind that ends the work on a scope. */
  ghost predicate Ends(plan: Index, kind: Kind, scope: Id, w: Id) {
    w in plan && plan[w].kind == kind && plan[w].scope == scope
  }

  ghost predicate EndsOnce(plan: Index, kind: Kind, scope: Id) {
    exists w :: Ends(plan, kind, scope, w) && forall v :: Ends(plan, kind, scope, v) ==> v == w
  }

  lemma OneMatch(plan: Index, kind: Kind, scope: Id)
    ensures |Matches(plan, kind, scope)| == 1 <==> EndsOnce(plan, kind, scope)
    ensures forall w :: w in Matches(plan, kind, scope) <==> Ends(plan, kind, scope, w)
  {
    OneElement(Matches(plan, kind, scope));
    forall w ensures w in Matches(plan, kind, scope) <==> Ends(plan, kind, scope, w) {
    }
  }

  lemma OneElement(s: set<Id>)
    ensures |s| == 1 <==> exists w :: w in s && forall v :: v in s ==> v == w
  {
    if |s| == 1 {
      var w := AnyOf(s);
      assert |s - {w}| == 0;
      forall v | v in s ensures v == w {
        assert v == w || v in s - {w};
      }
    }
    if w :| w in s && forall v :: v in s ==> v == w {
      assert s == {w};
    }
  }

  ghost predicate Requested(plan: Index, request: Request, w: Id) {
    && w in plan
    && (request.allWork || w in request.workIds
        || (exists u :: u in request.unitIds && Ends(plan, NeighborhoodSynthesis, u, w))
        || (exists l :: l in request.linkIds && Ends(plan, BridgeSynthesis, l, w)))
  }

  ghost predicate Resolvable(plan: Index, request: Request) {
    && (forall w :: w in request.workIds ==> w in plan)
    && (forall u :: u in request.unitIds ==> EndsOnce(plan, NeighborhoodSynthesis, u))
    && (forall l :: l in request.linkIds ==> EndsOnce(plan, BridgeSynthesis, l))
  }

  method ResolveScopes(plan: Index, kind: Kind, scopes: seq<Id>) returns (ok: bool, targets: set<Id>)
    ensures ok <==> forall u :: u in scopes ==> EndsOnce(plan, kind, u)
    ensures ok ==> forall w :: w in targets <==> exists u :: u in scopes && Ends(plan, kind, u, w)
  {
    targets := {};
    for i := 0 to |scopes|
      invariant forall u :: u in scopes[..i] ==> EndsOnce(plan, kind, u)
      invariant forall w :: w in targets <==> exists u :: u in scopes[..i] && Ends(plan, kind, u, w)
    {
      OneMatch(plan, kind, scopes[i]);
      var matches := Matches(plan, kind, scopes[i]);
      assert scopes[i] in scopes;
      if |matches| != 1 {
        return false, targets;
      }
      ghost var was := targets;
      targets := targets + matches;
      assert scopes[..i + 1] == scopes[..i] + [scopes[i]];
      forall w ensures w in targets <==> exists u :: u in scopes[..i + 1] && Ends(plan, kind, u, w) {
        if w in was {
          var u :| u in scopes[..i] && Ends(plan, kind, u, w);
        } else if w in matches {
          assert scopes[i] in scopes[..i + 1];
        }
      }
    }
    assert scopes[..|scopes|] == scopes;
    return true, targets;
  }

  method ResolveTargets(plan: Index, request: Request) returns (r: Result<set<Id>, SelectError>)
    ensures r.Ok? <==> Resolvable(plan, request) && exists w :: Requested(plan, request, w)
    ensures r.Ok? ==> forall w :: w in r.value <==> Requested(plan, request, w)
  {
    var targets: set<Id> := if request.allWork then plan.Keys else {};
    if exists w :: w in request.workIds && w !in plan {
      return Err(OutsidePlan);
    }
    targets := targets + Elements(request.workIds);
    var ok, units := ResolveScopes(plan, NeighborhoodSynthesis, request.unitIds);
    if !ok {
      return Err(UnitNotFoundOnce);
    }
    var links;
    ok, links := ResolveScopes(plan, BridgeSynthesis, request.linkIds);
    if !ok {
      return Err(LinkNotFoundOnce);
    }
    targets := targets + units + links;
    assert forall w :: w in targets <==> Requested(plan, request, w);
    if targets == {} {
      return Err(NothingRequested);
    }
    ghost var some := AnyOf(targets);
    assert Requested(plan, request, some);
    return Ok(targets);
  }

  // --- the selection -----------------------------------------------------------------------------

  function StageAt(plan: Index, w: Id): int {
    if w in plan then plan[w].stage else 0
  }

  function WorkBefore(plan: Index): (Id, Id) -> bool {
    (a: Id, b: Id) => StageAt(plan, a) < StageAt(plan, b) || (StageAt(plan, a) == StageAt(plan, b) && a < b)
  }

  ghost predicate ReachedFrom(plan: Index, targets: set<Id>, w: Id) {
    exists t :: t in targets && Reachable(plan, t, w)
  }

  /** Earlier stages first, and within a stage the lesser ids. */
  ghost predicate ByStage(plan: Index, selected: seq<Id>) {
    && (forall w :: w in selected ==> w in plan)
    && (forall i, j :: 0 <= i < j < |selected| ==> EarlierByStage(plan, selected[i], selected[j]))
  }

  ghost predicate EarlierByStage(plan: Index, w: Id, v: Id) {
    w in plan && v in plan && (plan[w].stage < plan[v].stage || (plan[w].stage == plan[v].stage && w < v))
  }

  lemma InOrderIsByStage(plan: Index, selected: seq<Id>)
    requires Distinct(selected) && InOrder(selected, WorkBefore(plan)) && forall w :: w in selected ==> w in plan
    ensures ByStage(plan, selected)
  {
    forall i, j | 0 <= i < j < |selected| ensures EarlierByStage(plan, selected[i], selected[j]) {
      assert !WorkBefore(plan)(selected[j], selected[i]);
      assert selected[i] in selected && selected[j] in selected;
    }
  }

  /** The least closure of the targets, listed once each by stage and id. */
  ghost predicate IsClosure(plan: Index, targets: set<Id>, selected: seq<Id>) {
    && ByStage(plan, selected)
    && (forall w :: w in selected <==> ReachedFrom(plan, targets, w))
  }

  /** The search so far: a topological list that closes the targets already added. */
  ghost predicate Closing(plan: Index, targets: set<Id>, order: seq<Id>) {
    && Topological(plan, order)
    && (forall t :: t in targets ==> t in order)
    && (forall x :: x in order ==> ReachedFrom(plan, targets, x))
  }

  lemma CloseOne(plan: Index, targets: set<Id>, order: seq<Id>, longer: seq<Id>, t: Id)
    requires Closing(plan, targets, order) && Extends(plan, t, order, longer) && t in longer
    ensures Closing(plan, targets + {t}, longer)
  {
    forall x | x in longer ensures ReachedFrom(plan, targets + {t}, x) {
      if x in order {
        assert ReachedFrom(plan, targets, x);
        var u :| u in targets && Reachable(plan, u, x);
        assert u in targets + {t};
      } else {
        assert t in targets + {t};
      }
    }
  }

  /** One turn of the loop over the targets. */
  method AddTarget(plan: Index, t: Id, ghost added: set<Id>, selected: set<Id>, ghost order: seq<Id>)
    returns (error: Option<SelectError>, after: set<Id>, ghost longer: seq<Id>)
    requires t in plan && Closing(plan, added, order) && Elements(order) == selected
    ensures error.None? ==> Closing(plan, added + {t}, longer) && Elements(longer) == after
    ensures error.Some? ==> Broken(plan, t)
  {
    error, after, longer := AddWithDependencies(plan, t, {}, selected, order);
    if error.None? {
      CloseOne(plan, added, order, longer, t);
    }
  }

  lemma ElementsMore(targets: seq<Id>, k: nat)
    requires k < |targets|
    ensures Elements(targets[..k + 1]) == Elements(targets[..k]) + {targets[k]}
  {
    assert targets[..k + 1] == targets[..k] + [targets[k]];
  }

  method CloseAll(plan: Index, targets: seq<Id>) returns (error: Option<SelectError>, selected: set<Id>, ghost order: seq<Id>)
    requires forall t :: t in targets ==> t in plan
    ensures error.None? ==> Closing(plan, Elements(targets), order) && Elements(order) == selected
    ensures error.Some? ==> exists t :: t in targets && Broken(plan, t)
  {
    selected, order, error := {}, [], None;
    for k := 0 to |targets|
      invariant error.None? && Closing(plan, Elements(targets[..k]), order) && Elements(order) == selected
    {
      assert targets[k] in targets;
      error, selected, order := AddTarget(plan, targets[k], Elements(targets[..k]), selected, order);
      if error.Some? {
        return;
      }
      ElementsMore(targets, k);
    }
    assert targets[..|targets|] == targets;
  }

  method Close(plan: Index, targets: set<Id>) returns (r: Result<seq<Id>, SelectError>)
    requires forall t :: t in targets ==> t in plan
    ensures r.Ok? <==> forall t :: t in targets ==> !Broken(plan, t)
    ensures r.Ok? ==> IsClosure(plan, targets, r.value) && ClosedUnderDeps(plan, r.value)
  {
    var sorted := SortedSet(targets);
    assert forall t :: t in sorted <==> t in Elements(sorted);
    var error, selected, order := CloseAll(plan, sorted);
    if error.Some? {
      return Err(error.value);
    }
    r := ListSelected(plan, targets, selected, order);
  }

  method ListSelected(plan: Index, ghost targets: set<Id>, selected: set<Id>, ghost order: seq<Id>) returns (r: Result<seq<Id>, SelectError>)
    requires Closing(plan, targets, order) && Elements(order) == selected
    ensures r.Ok? && IsClosure(plan, targets, r.value) && ClosedUnderDeps(plan, r.value)
    ensures forall t :: t in targets ==> !Broken(plan, t)
  {
    assert StrictWeak(WorkBefore(plan));
    var listed := SortBy(SortedSet(selected), WorkBefore(plan));
    ListingFacts(selected, WorkBefore(plan), listed);
    ListClosure(plan, targets, order, listed);
    ClosedIsUnbroken(plan, targets, order);
    return Ok(listed);
  }

  ghost predicate ClosedUnderDeps(plan: Index, selected: seq<Id>) {
    forall w, d :: w in selected && DependsOn(plan, w, d) ==> d in selected
  }

  lemma ClosedIsUnbroken(plan: Index, targets: set<Id>, order: seq<Id>)
    requires Closing(plan, targets, order)
    ensures forall t :: t in targets ==> !Broken(plan, t)
    ensures forall x :: ReachedFrom(plan, targets, x) ==> x in order
  {
    forall t | t in targets ensures !Broken(plan, t) && forall c :: Reachable(plan, t, c) ==> c in order {
      ListedIsNotBroken(plan, order, t);
    }
  }

  lemma ListClosure(plan: Index, targets: set<Id>, order: seq<Id>, listed: seq<Id>)
    requires Closing(plan, targets, order)
    requires Distinct(listed) && InOrder(listed, WorkBefore(plan)) && forall w :: w in listed <==> w in Elements(order)
    ensures IsClosure(plan, targets, listed) && ClosedUnderDeps(plan, listed)
  {
    ClosedIsUnbroken(plan, targets, order);
    forall w | w in listed ensures w in plan {
      var i: nat :| i < |order| && order[i] == w;
    }
    InOrderIsByStage(plan, listed);
    forall w, d | w in listed && DependsOn(plan, w, d) ensures d in listed {
      var i: nat :| i < |order| && order[i] == w;
      assert EarlierDeps(plan, order, i);
    }
  }

  /** The request can be answered: targets named exactly, and no cycle or unknown id behind them. */
  ghost predicate Selectable(plan: Index, request: Request) {
    && Resolvable(plan, request) && AsksForWork(plan, request)
    && (forall w :: Requested(plan, request, w) ==> !Broken(plan, w))
  }

  ghost predicate AsksForWork(plan: Index, request: Request) {
    exists w :: Requested(plan, request, w)
  }

  /** The answer: the least closure of everything requested. */
  ghost predicate Selection(plan: Index, request: Request, selected: seq<Id>) {
    exists targets :: Answers(plan, request, targets, selected)
  }

  ghost predicate Answers(plan: Index, request: Request, targets: set<Id>, selected: seq<Id>) {
    (forall w :: w in targets <==> Requested(plan, request, w)) && IsClosure(plan, targets, selected)
  }

  /** Everything `select_work` promises of one request. */
  method Select(items: seq<WorkItem>, request: Request) returns (r: Result<seq<Id>, SelectError>)
    ensures r.Ok? <==> UniqueIds(items) && Selectable(IndexFor(items), request)
    ensures r.Ok? ==> Selection(IndexFor(items), request, r.value)
  {
    var index := BuildIndex(items);
    if index.None? {
      return Err(DuplicateWork);
    }
    var plan := index.value;
    IndexIsUnique(items, plan, IndexFor(items));
    var targets := ResolveTargets(plan, request);
    if targets.Err? {
      return Err(targets.error);
    }
    forall w | w in targets.value ensures w in plan.Keys {
      assert Requested(plan, request, w);
    }
    r := Close(plan, targets.value);
    assert r.Ok? ==> Answers(plan, request, targets.value, r.value);
  }

  // --- what the stage rule adds --------------------------------------------------------------------

  lemma {:induction false} StagesFall(plan: Index, path: seq<Id>)
    requires StageRule(plan) && path != [] && path[0] in plan && IsChain(plan, path)
    ensures path[|path| - 1] in plan && plan[path[|path| - 1]].stage <= plan[path[0]].stage
    ensures |path| > 1 ==> plan[path[|path| - 1]].stage < plan[path[0]].stage
  {
    if |path| > 1 {
      assert DependsOn(plan, path[0], path[1]);
      forall a, b | 0 <= a && b == a + 1 < |path[1..]| ensures DependsOn(plan, path[1..][a], path[1..][b]) {
        assert DependsOn(plan, path[a + 1], path[b + 1]);
      }
      StagesFall(plan, path[1..]);
    }
  }

  /** A plan that keeps the stage rule never makes selection fail on its dependencies. */
  lemma StageRuleNeverBreaks(plan: Index, w: Id)
    requires StageRule(plan) && w in plan
    ensures !Broken(plan, w)
  {
    forall c | Reachable(plan, w, c) ensures c in plan && !OnCycle(plan, c) {
      var path :| Leads(plan, path, w, c);
      StagesFall(plan, path);
      forall d | DependsOn(plan, c, d) ensures !Reachable(plan, d, c) {
        forall around | around != [] && around[0] == d && IsChain(plan, around) ensures around[|around| - 1] != c {
          StagesFall(plan, around);
        }
      }
    }
  }

  /** Under the stage rule the listed order runs every dependency before what needs it. */
  lemma ClosureIsTopological(plan: Index, targets: set<Id>, selected: seq<Id>, i: nat, d: Id)
    requires StageRule(plan) && IsClosure(plan, targets, selected) && i < |selected| && DependsOn(plan, selected[i], d)
    ensures d in selected[..i]
  {
    assert selected[i] in selected;
    var t :| t in targets && Reachable(plan, t, selected[i]);
    ReachThrough(plan, t, selected[i], d);
    assert ReachedFrom(plan, targets, d);
    var j: nat :| j < |selected| && selected[j] == d;
    assert j < i by {
      assert !EarlierByStage(plan, selected[i], selected[j]) && i != j;
    }
    assert selected[..i][j] == d;
  }

  lemma ReachThrough(plan: Index, a: Id, b: Id, c: Id)
    requires Reachable(plan, a, b) && DependsOn(plan, b, c)
    ensures Reachable(plan, a, c)
  {
    var path :| Leads(plan, path, a, b);
    var longer := path + [c];
    forall i, j | 0 <= i && j == i + 1 < |longer| ensures DependsOn(plan, longer[i], longer[j]) {
      if j < |path| {
        assert DependsOn(plan, path[i], path[j]);
      }
    }
    assert Leads(plan, longer, a, c);
  }

  /** A selection of a plan that keeps the stage rule can always be executed in its listed order. */
  lemma ClosureRunsDepsFirst(plan: Index, targets: set<Id>, selected: seq<Id>)
    requires StageRule(plan) && IsClosure(plan, targets, selected)
    ensures DepsFirst(plan, selected)
  {
    forall i: nat, d | i < |selected| && DependsOn(plan, selected[i], d) ensures d in selected[..i] {
      ClosureIsTopological(plan, targets, selected, i, d);
    }
  }
}
