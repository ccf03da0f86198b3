/** Work items of an excavation plan and the dictionary that indexes them. */
module WorkPlan {
  import opened Wrappers
  import opened Ordering

  datatype Kind = SourceMotifs | Correspondence | NeighborhoodSynthesis | BridgeSynthesis

  function StageOf(kind: Kind): int {
    match kind
    case SourceMotifs => 1
    case Correspondence => 2
    case NeighborhoodSynthesis => 3
    case BridgeSynthesis => 4
  }

  predicate Generative(kind: Kind) {
    !kind.Correspondence?
  }

  datatype WorkItem = WorkItem(
    id: Id, kind: Kind, stage: int, scope: Id, sources: seq<Id>, populations: seq<Id>, dependsOn: seq<Id>)

  type Index = map<Id, WorkItem>

  ghost predicate UniqueIds(items: seq<WorkItem>) {
    forall i, j :: 0 <= i < j < |items| ==> items[i].id != items[j].id
  }

  ghost predicate IndexOf(items: seq<WorkItem>, index: Index) {
    && (forall w :: w in index <==> exists i :: 0 <= i < |items| && items[i].id == w)
    && (forall i :: 0 <= i < |items| ==> items[i].id in index && index[items[i].id] == items[i])
  }

  /** The index of items with ids of their own. */
  ghost function IndexFor(items: seq<WorkItem>): (index: Index)
    requires UniqueIds(items)
    ensures IndexOf(items, index)
  {
    map w | w in items :: w.id := w
  }

  lemma IndexIsUnique(items: seq<WorkItem>, a: Index, b: Index)
    requires IndexOf(items, a) && IndexOf(items, b)
    ensures a == b
  {
    forall w ensures w in a <==> w in b {}
    forall w | w in a ensures a[w] == b[w] {
      var i :| 0 <= i < |items| && items[i].id == w;
      assert items[i].id in a && items[i].id in b;
    }
  }

  /** Fails exactly when two items share an id. */
  method BuildIndex(items: seq<WorkItem>) returns (r: Option<Index>)
    ensures r.Some? <==> UniqueIds(items)
    ensures r.Some? ==> IndexOf(items, r.value)
  {
    var index: Index := map[];
    for i := 0 to |items|
      invariant UniqueIds(items[..i]) && IndexOf(items[..i], index)
    {
      if items[i].id in index {
        var k :| 0 <= k < i && items[..i][k].id == items[i].id;
        assert items[k].id == items[i].id;
        return None;
      }
      index := index[items[i].id := items[i]];
      assert items[..i + 1] == items[..i] + [items[i]];
    }
    assert items[..|items|] == items;
    return Some(index);
  }

  // --- the dependency relation ---------------------------------------------------------------

  ghost predicate DependsOn(plan: Index, w: Id, d: Id) {
    w in plan && d in plan[w].dependsOn
  }

  ghost predicate IsChain(plan: Index, path: seq<Id>) {
    forall i, j :: 0 <= i && j == i + 1 < |path| ==> DependsOn(plan, path[i], path[j])
  }

  ghost predicate Leads(plan: Index, path: seq<Id>, a: Id, b: Id) {
    path != [] && path[0] == a && path[|path| - 1] == b && IsChain(plan, path)
  }

  /** `b` is `a` itself or a dependency of it, however far removed. */
  ghost predicate Reachable(plan: Index, a: Id, b: Id) {
    exists path :: Leads(plan, path, a, b)
  }

  lemma ReachSelf(plan: Index, a: Id)
    ensures Reachable(plan, a, a)
  {
    assert Leads(plan, [a], a, a);
  }

  lemma ReachStep(plan: Index, a: Id, b: Id, c: Id)
    requires DependsOn(plan, a, b) && Reachable(plan, b, c)
    ensures Reachable(plan, a, c)
  {
    var path :| Leads(plan, path, b, c);
    var longer := [a] + path;
    forall i, j | 0 <= i && j == i + 1 < |longer| ensures DependsOn(plan, longer[i], longer[j]) {
      if i > 0 {
        assert DependsOn(plan, path[i - 1], path[j - 1]);
      }
    }
    assert Leads(plan, longer, a, c);
  }

  /** Every dependency exists and has a strictly earlier stage. */
  ghost predicate StageRule(plan: Index) {
    forall w, d :: DependsOn(plan, w, d) ==> d in plan && plan[d].stage < plan[w].stage
  }

  /** An order of execution in which dependencies always come first. */
  ghost predicate DepsFirst(plan: Index, selected: seq<Id>) {
    forall i: nat, d :: i < |selected| && DependsOn(plan, selected[i], d) ==> d in selected[..i]
  }
}
