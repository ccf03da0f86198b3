/** The parent hierarchy of a synthesis result: every chain of parents must end at a root. */
module ParentGraph {
  import opened Wrappers
  import opened Ordering

  datatype HierarchyError = UnknownParent | SelfParent | Cycle

  /** The declared parents; a node without one is a root. */
  function Parents(nodes: map<Id, Option<Id>>): (parents: map<Id, Id>)
    ensures forall k :: k in parents <==> k in nodes && nodes[k].Some?
    ensures forall k :: k in parents ==> parents[k] == nodes[k].value
  {
    map k | k in nodes && nodes[k].Some? :: nodes[k].value
  }

  function Follow(parents: map<Id, Id>, start: Id, steps: nat): Id {
    if steps == 0 then start
    else
      var s := Follow(parents, start, steps - 1);
      if s in parents then parents[s] else s
  }

  ghost predicate ReachesRoot(parents: map<Id, Id>, start: Id) {
    exists steps :: Follow(parents, start, steps) !in parents
  }

  ghost predicate OwnAncestor(parents: map<Id, Id>, key: Id) {
    key in parents && exists steps :: steps > 0 && Follow(parents, key, steps) == key
  }

  /** A set of non-root nodes closed under parents is never left. */
  lemma {:induction false} Trapped(parents: map<Id, Id>, trap: set<Id>, start: Id, steps: nat)
    requires start in trap && forall v :: v in trap ==> v in parents && parents[v] in trap
    ensures Follow(parents, start, steps) in trap
  {
    if steps > 0 {
      Trapped(parents, trap, start, steps - 1);
    }
  }

  /** A node that is its own ancestor never reaches a root. */
  lemma OwnAncestorIsTrapped(parents: map<Id, Id>, key: Id)
    requires OwnAncestor(parents, key)
    ensures !ReachesRoot(parents, key)
  {
    var period :| period > 0 && Follow(parents, key, period) == key;
    forall steps: nat ensures Follow(parents, key, steps) in parents {
      AroundTheLoop(parents, key, period, steps);
    }
  }

  lemma {:induction false} AroundTheLoop(parents: map<Id, Id>, key: Id, period: nat, steps: nat)
    requires key in parents && period > 0 && Follow(parents, key, period) == key
    ensures Follow(parents, key, steps) in parents
    decreases steps
  {
    if steps < period {
      if Follow(parents, key, steps) !in parents {
        StuckAtRoot(parents, key, steps, period);
      }
    } else {
      FollowAdds(parents, key, period, steps - period);
      AroundTheLoop(parents, key, period, steps - period);
    }
  }

  lemma {:induction false} StuckAtRoot(parents: map<Id, Id>, key: Id, steps: nat, more: nat)
    requires Follow(parents, key, steps) !in parents && steps <= more
    ensures Follow(parents, key, more) == Follow(parents, key, steps)
  {
    if steps < more {
      StuckAtRoot(parents, key, steps, more - 1);
    }
  }

  lemma {:induction false} FollowAdds(parents: map<Id, Id>, start: Id, a: nat, b: nat)
    ensures Follow(parents, start, a + b) == Follow(parents, Follow(parents, start, a), b)
  {
    if b > 0 {
      FollowAdds(parents, start, a, b - 1);
    }
  }

  ghost predicate ComesTo(parents: map<Id, Id>, v: Id, current: Id) {
    exists k: nat :: k > 0 && Follow(parents, v, k) == current
  }

  /** The visited nodes all lead on, each to the next, up to the current one. */
  ghost predicate Trail(parents: map<Id, Id>, visited: set<Id>, start: Id, current: Id) {
    && visited <= parents.Keys
    && (start in visited || start == current)
    && (forall v :: v in visited ==> parents[v] in visited || parents[v] == current)
    && (forall v :: v in visited ==> ComesTo(parents, v, current))
  }

  lemma TrailGrows(parents: map<Id, Id>, visited: set<Id>, start: Id, current: Id)
    requires Trail(parents, visited, start, current) && current in parents
    ensures Trail(parents, visited + {current}, start, parents[current])
  {
    assert Follow(parents, current, 0) == current;
    assert Follow(parents, current, 1) == parents[current];
    forall v | v in visited + {current} ensures ComesTo(parents, v, parents[current]) {
      if v != current {
        assert ComesTo(parents, v, current);
        var k: nat :| k > 0 && Follow(parents, v, k) == current;
        assert Follow(parents, v, k + 1) == parents[current];
      }
    }
  }

  lemma TrailCloses(parents: map<Id, Id>, visited: set<Id>, start: Id, current: Id)
    requires Trail(parents, visited, start, current) && current in visited
    ensures !ReachesRoot(parents, start) && OwnAncestor(parents, current)
  {
    assert ComesTo(parents, current, current);
    forall k: nat ensures Follow(parents, start, k) in parents {
      Trapped(parents, visited, start, k);
    }
  }

  /** The walk from one node: it ends at a root, or comes back to a node it has visited. */
  method Walk(parents: map<Id, Id>, start: Id) returns (ok: bool)
    ensures ok <==> ReachesRoot(parents, start)
    ensures !ok ==> exists key :: OwnAncestor(parents, key)
  {
    var visited: set<Id> := {};
    var current := start;
    ghost var steps: nat := 0;
    while current in parents
      invariant Trail(parents, visited, start, current)
      invariant current == Follow(parents, start, steps)
      decreases |parents.Keys - visited|
    {
      if current in visited {
        TrailCloses(parents, visited, start, current);
        return false;
      }
      TrailGrows(parents, visited, start, current);
      assert parents.Keys - (visited + {current}) == parents.Keys - visited - {current};
      visited := visited + {current};
      current := parents[current];
      steps := steps + 1;
    }
    return true;
  }

  method CheckDeclared(nodes: map<Id, Option<Id>>, parents: map<Id, Id>) returns (r: Option<HierarchyError>)
    requires parents == Parents(nodes)
    ensures r.None? <==> forall k :: k in parents ==> parents[k] in nodes && parents[k] != k
    ensures r == Some(SelfParent) ==> exists k :: k in parents && parents[k] == k
    ensures r != Some(Cycle)
  {
    var declared := SortedSet(parents.Keys);
    assert forall k :: k in declared <==> k in Elements(declared);
    for i := 0 to |declared|
      invariant forall j :: 0 <= j < i ==> parents[declared[j]] in nodes && parents[declared[j]] != declared[j]
    {
      var key := declared[i];
      assert key in declared;
      if parents[key] !in nodes {
        return Some(UnknownParent);
      }
      if parents[key] == key {
        return Some(SelfParent);
      }
    }
    forall k | k in parents ensures parents[k] in nodes && parents[k] != k {
      assert k in declared;
    }
    return None;
  }

  method CheckChains(nodes: map<Id, Option<Id>>, parents: map<Id, Id>) returns (ok: bool)
    ensures ok <==> forall k :: k in nodes ==> ReachesRoot(parents, k)
    ensures !ok ==> exists key :: OwnAncestor(parents, key)
  {
    var starts := SortedSet(nodes.Keys);
    assert forall k :: k in starts <==> k in Elements(starts);
    for i := 0 to |starts|
      invariant forall j :: 0 <= j < i ==> ReachesRoot(parents, starts[j])
    {
      assert starts[i] in starts;
      var reached := Walk(parents, starts[i]);
      if !reached {
        return false;
      }
    }
    forall k | k in nodes ensures ReachesRoot(parents, k) {
      assert k in starts;
    }
    return true;
  }

  ghost predicate Accepted(nodes: map<Id, Option<Id>>) {
    && (forall k :: k in Parents(nodes) ==> Parents(nodes)[k] in nodes)
    && (forall k :: k in nodes ==> ReachesRoot(Parents(nodes), k))
  }

  lemma SelfParentNeverEnds(parents: map<Id, Id>, key: Id)
    requires key in parents && parents[key] == key
    ensures !ReachesRoot(parents, key)
  {
    assert Follow(parents, key, 0) == key;
    assert Follow(parents, key, 1) == key;
    OwnAncestorIsTrapped(parents, key);
  }

  /** Accepted exactly when every declared parent is a known node and every chain of parents ends. */
  method Validate(nodes: map<Id, Option<Id>>) returns (r: Option<HierarchyError>)
    ensures r.None? <==> Accepted(nodes)
    ensures r == Some(Cycle) ==> exists key :: OwnAncestor(Parents(nodes), key)
    ensures r == Some(SelfParent) ==> exists k :: k in nodes && nodes[k] == Some(k)
  {
    var parents := Parents(nodes);
    forall k | k in parents && parents[k] == k ensures !ReachesRoot(parents, k) {
      SelfParentNeverEnds(parents, k);
    }
    r := CheckDeclared(nodes, parents);
    if r.None? {
      var ok := CheckChains(nodes, parents);
      if !ok {
        return Some(Cycle);
      }
    }
  }

  // --- the same condition stated with depths --------------------------------------------------

  /** Depths that fall strictly along every declared parent. */
  ghost predicate Ranked(parents: map<Id, Id>, depth: map<Id, nat>) {
    forall k :: k in parents ==> k in depth && parents[k] in depth && depth[parents[k]] < depth[k]
  }

  lemma {:induction false} RankedChainsEnd(parents: map<Id, Id>, depth: map<Id, nat>, key: Id)
    requires key in depth && Ranked(parents, depth)
    ensures ReachesRoot(parents, key)
    decreases depth[key]
  {
    if key in parents {
      RankedChainsEnd(parents, depth, parents[key]);
      var steps: nat :| Follow(parents, parents[key], steps) !in parents;
      assert Follow(parents, key, 0) == key;
      assert Follow(parents, key, 1) == parents[key];
      FollowAdds(parents, key, 1, steps);
      assert Follow(parents, key, 1 + steps) !in parents;
    } else {
      assert Follow(parents, key, 0) !in parents;
    }
  }

  /** How far a node is from its root. */
  ghost function Depth(parents: map<Id, Id>, key: Id): (d: nat)
    requires ReachesRoot(parents, key)
    ensures Follow(parents, key, d) !in parents && forall k: nat :: k < d ==> Follow(parents, key, k) in parents
  {
    var steps: nat :| Follow(parents, key, steps) !in parents;
    FirstExit(parents, key, steps)
  }

  ghost function FirstExit(parents: map<Id, Id>, key: Id, steps: nat): (d: nat)
    requires Follow(parents, key, steps) !in parents
    ensures d <= steps && Follow(parents, key, d) !in parents && forall k: nat :: k < d ==> Follow(parents, key, k) in parents
    decreases steps
  {
    if k: nat :| k < steps && Follow(parents, key, k) !in parents then FirstExit(parents, key, k) else steps
  }

  /** A node is one step further from its root than its parent. */
  lemma DepthOfParent(parents: map<Id, Id>, key: Id)
    requires key in parents && ReachesRoot(parents, key)
    ensures ReachesRoot(parents, parents[key]) && Depth(parents, key) == Depth(parents, parents[key]) + 1
  {
    var d := Depth(parents, key);
    assert Follow(parents, key, 0) == key;
    assert Follow(parents, key, 1) == parents[key];
    FollowAdds(parents, key, 1, d - 1);
    assert Follow(parents, parents[key], d - 1) !in parents;
    var e := Depth(parents, parents[key]);
    FollowAdds(parents, key, 1, e);
    assert Follow(parents, key, 1 + e) !in parents;
  }

  /** Depths that fall by one along every declared parent, and are zero at the roots. */
  ghost predicate Depths(parents: map<Id, Id>, depth: map<Id, nat>) {
    && (forall k :: k in parents ==> k in depth && parents[k] in depth && depth[k] == depth[parents[k]] + 1)
    && (forall k :: k in depth && k !in parents ==> depth[k] == 0)
  }

  /** An accepted hierarchy has depths: the distance of each node from its root. */
  lemma AcceptedHasDepths(nodes: map<Id, Option<Id>>) returns (depth: map<Id, nat>)
    requires Accepted(nodes)
    ensures depth.Keys == nodes.Keys && Depths(Parents(nodes), depth) && Ranked(Parents(nodes), depth)
  {
    var parents := Parents(nodes);
    depth := map k | k in nodes :: Depth(parents, k);
    forall k | k in parents ensures depth[k] == depth[parents[k]] + 1 {
      DepthOfParent(parents, k);
    }
    forall k | k in nodes && k !in parents ensures depth[k] == 0 {
      assert Follow(parents, k, 0) == k;
    }
  }
}
