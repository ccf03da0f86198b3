/**
 Splitting a neighbourhood into parts of bounded size and population. Each part is grown
 from a best-connected seed by always taking the affine source with the strongest ties.
 */
module Sharding {
  import opened Wrappers
  import opened Ordering
  import Components
  import Neighborhoods

  type Affinity = Neighborhoods.Affinity

  /** The bounds on one part; no population bound when it is absent. */
  datatype Bounds = Bounds(sources: int, populations: Option<int>)

  function Weight(weights: map<Id, int>, m: Id): nat {
    if m in weights && weights[m] > 0 then weights[m] else 0
  }

  function Load(weights: map<Id, int>, order: seq<Id>): nat {
    if order == [] then 0 else Load(weights, order[..|order| - 1]) + Weight(weights, order[|order| - 1])
  }

  predicate Affordable(bounds: Bounds, load: int) {
    bounds.populations.None? || load <= bounds.populations.value
  }

  // --- adjacency -------------------------------------------------------------------------------

  type Adjacency = map<(Id, Id), real>

  /** Affinities inside the member set, in both directions; a later affinity replaces an earlier one. */
  function AdjacencyOf(edges: seq<Affinity>, members: set<Id>): Adjacency {
    if edges == [] then map[]
    else
      var adj, e := AdjacencyOf(edges[..|edges| - 1], members), edges[|edges| - 1];
      if e.left in members && e.right in members
      then adj[(e.left, e.right) := e.similarity][(e.right, e.left) := e.similarity]
      else adj
  }

  lemma {:induction false} AdjacentIsAffine(edges: seq<Affinity>, members: set<Id>, a: Id, b: Id)
    ensures (a, b) in AdjacencyOf(edges, members) <==>
            a in members && b in members && ((a, b) in Neighborhoods.Pairs(edges) || (b, a) in Neighborhoods.Pairs(edges))
  {
    if edges != [] {
      AdjacentIsAffine(edges[..|edges| - 1], members, a, b);
      var e := edges[|edges| - 1];
      assert Neighborhoods.Pairs(edges) == Neighborhoods.Pairs(edges[..|edges| - 1]) + [(e.left, e.right)];
    }
  }

  function Score(adj: Adjacency, a: Id, b: Id): real {
    if (a, b) in adj then adj[(a, b)] else 0.0
  }

  function TotalScore(adj: Adjacency, option: Id, peers: seq<Id>): real {
    if peers == [] then 0.0
    else TotalScore(adj, option, peers[..|peers| - 1]) + Score(adj, option, peers[|peers| - 1])
  }

  function MaxScore(adj: Adjacency, option: Id, peers: seq<Id>): real
    requires peers != []
  {
    var last := Score(adj, option, peers[|peers| - 1]);
    if |peers| == 1 then last
    else
      var rest := MaxScore(adj, option, peers[..|peers| - 1]);
      if rest >= last then rest else last
  }

  // --- what the scores are, told from the affinities ---------------------------------------------

  /** The affinity joins the two sources, in either direction. */
  predicate Joins(e: Affinity, a: Id, b: Id) {
    (e.left == a && e.right == b) || (e.left == b && e.right == a)
  }

  ghost predicate LastJoining(edges: seq<Affinity>, i: int, a: Id, b: Id) {
    0 <= i < |edges| && Joins(edges[i], a, b) && forall j :: i < j < |edges| ==> !Joins(edges[j], a, b)
  }

  /** Two members score the similarity of the last affinity that joins them, and anything else nothing. */
  lemma {:induction false} ScoreIsLastSimilarity(edges: seq<Affinity>, members: set<Id>, a: Id, b: Id)
    ensures (a !in members || b !in members || forall i :: 0 <= i < |edges| ==> !Joins(edges[i], a, b)) ==> Score(AdjacencyOf(edges, members), a, b) == 0.0
    ensures forall i :: LastJoining(edges, i, a, b) && a in members && b in members ==> Score(AdjacencyOf(edges, members), a, b) == edges[i].similarity
  {
    if edges != [] {
      var init := edges[..|edges| - 1];
      ScoreIsLastSimilarity(init, members, a, b);
      forall i | LastJoining(edges, i, a, b) && i < |init| ensures LastJoining(init, i, a, b) {
        assert !Joins(edges[|edges| - 1], a, b);
      }
    }
  }

  /** A total adds up what the single peers score. */
  lemma {:induction false} TotalScoreAdds(adj: Adjacency, option: Id, xs: seq<Id>, ys: seq<Id>)
    ensures TotalScore(adj, option, []) == 0.0 && forall p :: TotalScore(adj, option, [p]) == Score(adj, option, p)
    ensures TotalScore(adj, option, xs + ys) == TotalScore(adj, option, xs) + TotalScore(adj, option, ys)
    decreases |ys|
  {
    forall p ensures TotalScore(adj, option, [p]) == Score(adj, option, p) {
      assert [p][..0] == [];
    }
    if ys == [] {
      assert xs + ys == xs;
    } else {
      assert (xs + ys)[..|xs + ys| - 1] == xs + ys[..|ys| - 1];
      TotalScoreAdds(adj, option, xs, ys[..|ys| - 1]);
    }
  }

  /** The strongest single tie. */
  lemma {:induction false} MaxScoreIsStrongest(adj: Adjacency, option: Id, peers: seq<Id>)
    requires peers != []
    ensures forall p :: p in peers ==> Score(adj, option, p) <= MaxScore(adj, option, peers)
    ensures exists p :: p in peers && Score(adj, option, p) == MaxScore(adj, option, peers)
  {
    var init, last := peers[..|peers| - 1], peers[|peers| - 1];
    assert peers == init + [last];
    if init != [] {
      MaxScoreIsStrongest(adj, option, init);
      var p :| p in init && Score(adj, option, p) == MaxScore(adj, option, init);
      assert p in peers;
    }
    assert last in peers;
  }

  /** The peers some affinity joins the option to. */
  ghost function AffinePeers(edges: seq<Affinity>, members: set<Id>, option: Id, peers: set<Id>): set<Id> {
    set p | p in peers && option in members && p in members && exists i :: 0 <= i < |edges| && Joins(edges[i], option, p)
  }

  lemma DegreeCountsAffine(edges: seq<Affinity>, members: set<Id>, option: Id, peers: set<Id>)
    ensures Degree(AdjacencyOf(edges, members), option, peers) == |AffinePeers(edges, members, option, peers)|
  {
    var adj := AdjacencyOf(edges, members);
    forall p ensures (option, p) in adj <==> option in members && p in members && exists i :: 0 <= i < |edges| && Joins(edges[i], option, p) {
      AdjacentIsJoined(edges, members, option, p);
    }
    assert (set p | p in peers && (option, p) in adj) == AffinePeers(edges, members, option, peers);
  }

  lemma {:induction false} AdjacentIsJoined(edges: seq<Affinity>, members: set<Id>, a: Id, b: Id)
    ensures (a, b) in AdjacencyOf(edges, members) <==> a in members && b in members && exists i :: 0 <= i < |edges| && Joins(edges[i], a, b)
  {
    if edges != [] {
      AdjacentIsJoined(edges[..|edges| - 1], members, a, b);
      if i :| 0 <= i < |edges| && Joins(edges[i], a, b) {
        assert i < |edges| - 1 ==> Joins(edges[..|edges| - 1][i], a, b);
      }
    }
  }

  // --- the two greedy keys -----------------------------------------------------------------------

  function Degree(adj: Adjacency, option: Id, peers: set<Id>): nat {
    |set p | p in peers && (option, p) in adj|
  }

  /** Which source seeds a part: strongest total affinity, most affine peers, smallest key. */
  function SeedBefore(adj: Adjacency, remaining: set<Id>, peers: seq<Id>): (Id, Id) -> bool {
    (a: Id, b: Id) =>
      if TotalScore(adj, a, peers) != TotalScore(adj, b, peers) then TotalScore(adj, a, peers) > TotalScore(adj, b, peers)
      else if Degree(adj, a, remaining) != Degree(adj, b, remaining) then Degree(adj, a, remaining) > Degree(adj, b, remaining)
      else a < b
  }

  /** Which source joins a part: strongest total affinity to it, strongest single tie, smallest key. */
  function JoinBefore(adj: Adjacency, selected: seq<Id>): (Id, Id) -> bool
    requires selected != []
  {
    (a: Id, b: Id) =>
      if TotalScore(adj, a, selected) != TotalScore(adj, b, selected) then TotalScore(adj, a, selected) > TotalScore(adj, b, selected)
      else if MaxScore(adj, a, selected) != MaxScore(adj, b, selected) then MaxScore(adj, a, selected) > MaxScore(adj, b, selected)
      else a < b
  }

  /** `min(options, key=...)`. */
  function MinBy(options: seq<Id>, before: (Id, Id) -> bool): (m: Id)
    requires options != []
    ensures m in options
  {
    if |options| == 1 then options[0]
    else
      var rest := MinBy(options[1..], before);
      if before(rest, options[0]) then rest else options[0]
  }

  lemma {:induction false} MinByIsFirst(options: seq<Id>, before: (Id, Id) -> bool)
    requires options != [] && StrictWeak(before)
    ensures forall o :: o in options ==> !before(o, MinBy(options, before))
  {
    if |options| > 1 {
      var rest := MinBy(options[1..], before);
      MinByIsFirst(options[1..], before);
      forall o | o in options ensures !before(o, MinBy(options, before)) {
        if o != options[0] {
          assert o in options[1..] && !before(o, rest);
        }
        assert before(o, options[0]) ==> before(o, rest) || before(rest, options[0]);
      }
    }
  }

  /** A better seed: more total affinity to what is left, then more affine sources, then the lesser id. */
  ghost predicate BetterSeed(adj: Adjacency, remaining: set<Id>, a: Id, b: Id) {
    var peers := SortedSet(remaining);
    || TotalScore(adj, a, peers) > TotalScore(adj, b, peers)
    || (TotalScore(adj, a, peers) == TotalScore(adj, b, peers) &&
        (Degree(adj, a, remaining) > Degree(adj, b, remaining) || (Degree(adj, a, remaining) == Degree(adj, b, remaining) && a < b)))
  }

  /** A better candidate: more total affinity to the part, then the stronger single tie to it, then the lesser id. */
  ghost predicate BetterJoin(adj: Adjacency, selected: seq<Id>, a: Id, b: Id)
    requires selected != []
  {
    || TotalScore(adj, a, selected) > TotalScore(adj, b, selected)
    || (TotalScore(adj, a, selected) == TotalScore(adj, b, selected) &&
        (MaxScore(adj, a, selected) > MaxScore(adj, b, selected) || (MaxScore(adj, a, selected) == MaxScore(adj, b, selected) && a < b)))
  }

  ghost predicate IsFirst(options: set<Id>, before: (Id, Id) -> bool, m: Id) {
    m in options && forall o :: o in options && o != m ==> before(m, o)
  }

  lemma FirstOfSet(options: set<Id>, before: (Id, Id) -> bool)
    requires options != {} && StrictWeak(before)
    requires forall a, b :: a != b ==> before(a, b) || before(b, a)
    ensures SortedSet(options) != [] && IsFirst(options, before, MinBy(SortedSet(options), before))
  {
    var xs := SortedSet(options);
    MinByIsFirst(xs, before);
    assert forall o :: o in options <==> o in Elements(xs);
  }

  // --- one part ------------------------------------------------------------------------------------

  /** The sources that touch the part and that it can still afford. */
  function Candidates(adj: Adjacency, weights: map<Id, int>, bounds: Bounds, remaining: set<Id>, selected: seq<Id>): set<Id> {
    set c | c in remaining && (exists p :: p in selected && (c, p) in adj) && Affordable(bounds, Load(weights, selected) + Weight(weights, c))
  }

  ghost predicate IsSeed(adj: Adjacency, remaining: set<Id>, seed: Id) {
    seed in remaining && forall o :: o in remaining && o != seed ==> BetterSeed(adj, remaining, seed, o)
  }

  ghost predicate JoinsNext(adj: Adjacency, weights: map<Id, int>, bounds: Bounds, remaining: set<Id>, selected: seq<Id>, c: Id)
    requires selected != []
  {
    |selected| < bounds.sources && IsJoiner(adj, Candidates(adj, weights, bounds, remaining - Elements(selected), selected), selected, c)
  }

  ghost predicate IsJoiner(adj: Adjacency, options: set<Id>, selected: seq<Id>, c: Id)
    requires selected != []
  {
    c in options && forall o :: o in options && o != c ==> BetterJoin(adj, selected, c, o)
  }

  /** The order in which one part was grown out of the sources that were left. */
  ghost predicate Grown(adj: Adjacency, weights: map<Id, int>, bounds: Bounds, remaining: set<Id>, order: seq<Id>) {
    if |order| <= 1 then |order| == 1 && IsSeed(adj, remaining, order[0])
    else
      var init := order[..|order| - 1];
      Grown(adj, weights, bounds, remaining, init) && JoinsNext(adj, weights, bounds, remaining, init, order[|order| - 1])
  }

  /** A part closes only when it is full or when no affine source left over still fits. */
  ghost predicate Closed(adj: Adjacency, weights: map<Id, int>, bounds: Bounds, remaining: set<Id>, order: seq<Id>) {
    |order| >= bounds.sources || Candidates(adj, weights, bounds, remaining - Elements(order), order) == {}
  }

  method NextCandidate(adj: Adjacency, weights: map<Id, int>, bounds: Bounds, remaining: set<Id>, selected: seq<Id>, load: nat)
    returns (c: Option<Id>)
    requires selected != [] && load == Load(weights, selected)
    ensures c.None? ==> Candidates(adj, weights, bounds, remaining, selected) == {}
    ensures c.Some? ==> c.value in remaining
    ensures c.Some? ==> IsJoiner(adj, Candidates(adj, weights, bounds, remaining, selected), selected, c.value)
  {
    var connected := set c | c in remaining && (exists p :: p in selected && (c, p) in adj) && Affordable(bounds, load + Weight(weights, c));
    assert connected == Candidates(adj, weights, bounds, remaining, selected);
    if connected == {} {
      return None;
    }
    FirstOfSet(connected, JoinBefore(adj, selected));
    return Some(MinBy(SortedSet(connected), JoinBefore(adj, selected)));
  }

  /** The growing of one part: what is selected, what is left over and how much has been taken. */
  ghost predicate Growing(adj: Adjacency, weights: map<Id, int>, bounds: Bounds, all: set<Id>, order: seq<Id>, remaining: set<Id>, load: int) {
    order != [] && Grown(adj, weights, bounds, all, order) && remaining == all - Elements(order) && load == Load(weights, order)
  }

  lemma GrowOne(adj: Adjacency, weights: map<Id, int>, bounds: Bounds, all: set<Id>, order: seq<Id>, remaining: set<Id>, load: int, c: Id)
    requires Growing(adj, weights, bounds, all, order, remaining, load) && JoinsNext(adj, weights, bounds, all, order, c)
    ensures Growing(adj, weights, bounds, all, order + [c], remaining - {c}, load + Weight(weights, c))
  {
    assert (order + [c])[..|order|] == order;
  }

  lemma FirstIsSeed(adj: Adjacency, remaining: set<Id>, seed: Id)
    requires remaining != {} && seed == MinBy(SortedSet(remaining), SeedBefore(adj, remaining, SortedSet(remaining)))
    requires SortedSet(remaining) != []
    ensures IsSeed(adj, remaining, seed)
  {
    var before := SeedBefore(adj, remaining, SortedSet(remaining));
    assert StrictWeak(before);
    FirstOfSet(remaining, before);
    forall o | o in remaining && o != seed ensures BetterSeed(adj, remaining, seed, o) {
      assert before(seed, o);
    }
  }

  method ChooseSeed(adj: Adjacency, remaining: set<Id>) returns (seed: Id)
    requires remaining != {}
    ensures IsSeed(adj, remaining, seed)
  {
    var peers := SortedSet(remaining);
    assert peers != [] by {
      assert Elements(peers) != {};
    }
    seed := MinBy(peers, SeedBefore(adj, remaining, peers));
    FirstIsSeed(adj, remaining, seed);
  }

  lemma StartGrowing(adj: Adjacency, weights: map<Id, int>, bounds: Bounds, all: set<Id>, seed: Id)
    requires IsSeed(adj, all, seed)
    ensures Growing(adj, weights, bounds, all, [seed], all - {seed}, Weight(weights, seed))
  {
    assert [seed][..0] == [];
    assert Elements([seed]) == {seed};
  }

  lemma GrowingStops(adj: Adjacency, weights: map<Id, int>, bounds: Bounds, all: set<Id>, order: seq<Id>, remaining: set<Id>, load: int)
    requires Growing(adj, weights, bounds, all, order, remaining, load)
    requires remaining == {} || |order| >= bounds.sources || Candidates(adj, weights, bounds, remaining, order) == {}
    ensures Grown(adj, weights, bounds, all, order) && Closed(adj, weights, bounds, all, order)
  {
  }

  method Grow(adj: Adjacency, weights: map<Id, int>, bounds: Bounds, all: set<Id>) returns (selected: seq<Id>)
    requires all != {}
    ensures Grown(adj, weights, bounds, all, selected) && Closed(adj, weights, bounds, all, selected)
  {
    var seed := ChooseSeed(adj, all);
    selected := [seed];
    var load := Weight(weights, seed);
    var remaining := all - {seed};
    StartGrowing(adj, weights, bounds, all, seed);
    while remaining != {} && |selected| < bounds.sources
      invariant Growing(adj, weights, bounds, all, selected, remaining, load)
      decreases |remaining|
    {
      var candidate := NextCandidate(adj, weights, bounds, remaining, selected, load);
      if candidate.None? {
        break;
      }
      GrowOne(adj, weights, bounds, all, selected, remaining, load, candidate.value);
      SmallerSet(remaining - {candidate.value}, remaining, candidate.value);
      selected := selected + [candidate.value];
      load := load + Weight(weights, candidate.value);
      remaining := remaining - {candidate.value};
    }
    GrowingStops(adj, weights, bounds, all, selected, remaining, load);
  }

  lemma JoinsFromTheRest(adj: Adjacency, weights: map<Id, int>, bounds: Bounds, remaining: set<Id>, selected: seq<Id>, c: Id)
    requires selected != [] && JoinsNext(adj, weights, bounds, remaining, selected, c)
    ensures c in remaining && c !in selected
  {
    assert c in Candidates(adj, weights, bounds, remaining - Elements(selected), selected);
  }

  /** A grown part is a non-empty selection of distinct sources that were left. */
  lemma {:induction false} GrownWithin(adj: Adjacency, weights: map<Id, int>, bounds: Bounds, remaining: set<Id>, order: seq<Id>)
    requires Grown(adj, weights, bounds, remaining, order)
    ensures order != [] && Distinct(order) && Elements(order) <= remaining
  {
    if |order| > 1 {
      var init, last := order[..|order| - 1], order[|order| - 1];
      GrownWithin(adj, weights, bounds, remaining, init);
      JoinsFromTheRest(adj, weights, bounds, remaining, init, last);
      assert order == init + [last];
      DistinctMore(init, last);
      forall x | x in Elements(order) ensures x in remaining {
        assert x == last || x in Elements(init);
      }
    }
  }

  // --- all parts -------------------------------------------------------------------------------------

  function Taken(orders: seq<seq<Id>>): set<Id> {
    if orders == [] then {} else Taken(orders[..|orders| - 1]) + Elements(orders[|orders| - 1])
  }

  /** The parts in the order the code closed them, each grown out of what the earlier ones left. */
  ghost predicate GreedySplit(adj: Adjacency, weights: map<Id, int>, bounds: Bounds, members: set<Id>, orders: seq<seq<Id>>) {
    orders == [] ||
    var init, last := orders[..|orders| - 1], orders[|orders| - 1];
    && GreedySplit(adj, weights, bounds, members, init)
    && Grown(adj, weights, bounds, members - Taken(init), last)
    && Closed(adj, weights, bounds, members - Taken(init), last)
  }

  /** The listed parts are the grown ones, each sorted. */
  ghost predicate Listed(orders: seq<seq<Id>>, parts: seq<seq<Id>>) {
    |parts| == |orders| && forall k :: 0 <= k < |orders| ==> parts[k] == SortedSet(Elements(orders[k]))
  }

  lemma ListOne(orders: seq<seq<Id>>, parts: seq<seq<Id>>, order: seq<Id>)
    requires Listed(orders, parts)
    ensures Listed(orders + [order], parts + [SortedSet(Elements(order))])
  {
  }

  lemma ShrinkRemaining(members: set<Id>, taken: set<Id>, remaining: set<Id>, order: seq<Id>)
    requires remaining == members - taken && taken <= members && order != [] && Elements(order) <= remaining
    ensures remaining - Elements(order) == members - (taken + Elements(order)) && taken + Elements(order) <= members
    ensures |remaining - Elements(order)| < |remaining|
  {
    assert order[0] in Elements(order);
    SmallerSet(remaining - Elements(order), remaining, order[0]);
  }

  predicate FitsWhole(weights: map<Id, int>, bounds: Bounds, members: seq<Id>) {
    |members| <= bounds.sources && Affordable(bounds, Load(weights, members))
  }

  /** A load adds up the positive weights. */
  lemma {:induction false} LoadAdds(weights: map<Id, int>, xs: seq<Id>, ys: seq<Id>)
    ensures Load(weights, []) == 0
    ensures forall x :: Load(weights, [x]) == if x in weights && weights[x] >= 0 then weights[x] else 0
    ensures Load(weights, xs + ys) == Load(weights, xs) + Load(weights, ys)
    decreases |ys|
  {
    forall x ensures Load(weights, [x]) == if x in weights && weights[x] >= 0 then weights[x] else 0 {
      assert [x][..0] == [];
    }
    if ys == [] {
      assert xs + ys == xs;
    } else {
      assert (xs + ys)[..|xs + ys| - 1] == xs + ys[..|ys| - 1];
      LoadAdds(weights, xs, ys[..|ys| - 1]);
    }
  }

  lemma SplitOne(adj: Adjacency, weights: map<Id, int>, bounds: Bounds, members: set<Id>, orders: seq<seq<Id>>, order: seq<Id>)
    requires GreedySplit(adj, weights, bounds, members, orders)
    requires Grown(adj, weights, bounds, members - Taken(orders), order) && Closed(adj, weights, bounds, members - Taken(orders), order)
    ensures GreedySplit(adj, weights, bounds, members, orders + [order])
    ensures Taken(orders + [order]) == Taken(orders) + Elements(order)
  {
    assert (orders + [order])[..|orders|] == orders;
  }

  method Split(adj: Adjacency, weights: map<Id, int>, bounds: Bounds, members: set<Id>)
    returns (parts: seq<seq<Id>>, ghost orders: seq<seq<Id>>)
    ensures GreedySplit(adj, weights, bounds, members, orders)
    ensures Taken(orders) == members && Listed(orders, parts)
  {
    var remaining := members;
    parts := [];
    orders := [];
    while remaining != {}
      invariant GreedySplit(adj, weights, bounds, members, orders)
      invariant remaining == members - Taken(orders) && Taken(orders) <= members
      invariant Listed(orders, parts)
      decreases |remaining|
    {
      var selected := Grow(adj, weights, bounds, remaining);
      GrownWithin(adj, weights, bounds, remaining, selected);
      SplitOne(adj, weights, bounds, members, orders, selected);
      ShrinkRemaining(members, Taken(orders), remaining, selected);
      ListOne(orders, parts, selected);
      orders := orders + [selected];
      parts := parts + [SortedSet(Elements(selected))];
      remaining := remaining - Elements(selected);
    }
  }

  // --- what a split guarantees --------------------------------------------------------------------

  /** No part is larger than the source bound, and only a single source may break the population bound. */
  ghost predicate WithinBounds(weights: map<Id, int>, bounds: Bounds, part: seq<Id>) {
    && part != []
    && (|part| <= bounds.sources || |part| == 1)
    && (|part| > 1 ==> Affordable(bounds, Load(weights, part)))
  }

  lemma {:induction false} GrownWithinBounds(adj: Adjacency, weights: map<Id, int>, bounds: Bounds, remaining: set<Id>, order: seq<Id>)
    requires Grown(adj, weights, bounds, remaining, order)
    ensures WithinBounds(weights, bounds, order)
  {
    if |order| > 1 {
      GrownWithinBounds(adj, weights, bounds, remaining, order[..|order| - 1]);
    }
  }

  /** Every source of a grown part is joined to its seed by affinities that stay inside the part. */
  lemma {:induction false} GrownIsConnected(
      edges: seq<Affinity>, members: set<Id>, weights: map<Id, int>, bounds: Bounds, remaining: set<Id>, order: seq<Id>, i: nat)
    requires Grown(AdjacencyOf(edges, members), weights, bounds, remaining, order) && i < |order|
    ensures Components.Connected(order, Neighborhoods.Pairs(edges), 0, i)
  {
    var pairs := Neighborhoods.Pairs(edges);
    if |order| == 1 {
      Components.ConnectedSelf(order, pairs, 0);
    } else {
      var init := order[..|order| - 1];
      if i < |init| {
        GrownIsConnected(edges, members, weights, bounds, remaining, init, i);
        ConnectedInPrefix(order, init, pairs, 0, i);
      } else {
        var p :| p in init && (order[i], p) in AdjacencyOf(edges, members);
        var j: nat :| j < |init| && init[j] == p;
        AdjacentIsAffine(edges, members, order[i], p);
        GrownIsConnected(edges, members, weights, bounds, remaining, init, j);
        ConnectedInPrefix(order, init, pairs, 0, j);
        assert Components.Linked(order, pairs, j, i);
        Components.ConnectedLink(order, pairs, j, i);
        Components.ConnectedTrans(order, pairs, 0, j, i);
      }
    }
  }

  lemma ConnectedInPrefix(order: seq<Id>, init: seq<Id>, pairs: seq<Components.Edge>, a: nat, b: nat)
    requires init <= order && Components.Connected(init, pairs, a, b)
    ensures Components.Connected(order, pairs, a, b)
  {
    var path :| Components.Joins(init, pairs, path, a, b);
    forall i, j | 0 <= i && j == i + 1 < |path| ensures Components.Linked(order, pairs, path[i], path[j]) {
      assert Components.Linked(init, pairs, path[i], path[j]);
    }
    assert Components.Joins(order, pairs, path, a, b);
  }

  lemma {:induction false} PartFacts(adj: Adjacency, weights: map<Id, int>, bounds: Bounds, members: set<Id>, orders: seq<seq<Id>>, k: nat)
    requires GreedySplit(adj, weights, bounds, members, orders) && k < |orders|
    ensures Grown(adj, weights, bounds, members - Taken(orders[..k]), orders[k])
    ensures Closed(adj, weights, bounds, members - Taken(orders[..k]), orders[k])
    ensures Elements(orders[k]) <= members - Taken(orders[..k])
  {
    var init := orders[..|orders| - 1];
    if k < |init| {
      PartFacts(adj, weights, bounds, members, init, k);
      assert init[..k] == orders[..k] && init[k] == orders[k];
    } else {
      assert orders[..k] == init && orders[k] == orders[|orders| - 1];
      GrownWithin(adj, weights, bounds, members - Taken(init), orders[k]);
    }
  }

  lemma {:induction false} TakenHas(orders: seq<seq<Id>>, k: nat)
    requires k < |orders|
    ensures Elements(orders[k]) <= Taken(orders)
  {
    if k < |orders| - 1 {
      TakenHas(orders[..|orders| - 1], k);
    }
  }

  /** Parts never overlap. */
  lemma PartsDisjoint(adj: Adjacency, weights: map<Id, int>, bounds: Bounds, members: set<Id>, orders: seq<seq<Id>>, j: nat, k: nat)
    requires GreedySplit(adj, weights, bounds, members, orders) && j < k < |orders|
    ensures Elements(orders[j]) !! Elements(orders[k])
  {
    PartFacts(adj, weights, bounds, members, orders, k);
    TakenHas(orders[..k], j);
  }

  lemma LaterIsLeftOver(
      adj: Adjacency, weights: map<Id, int>, bounds: Bounds, members: set<Id>, orders: seq<seq<Id>>, j: nat, k: nat, c: Id)
    requires GreedySplit(adj, weights, bounds, members, orders) && j < k < |orders| && c in orders[k]
    ensures c in members - Taken(orders[..j]) && c !in Elements(orders[j])
  {
    PartFacts(adj, weights, bounds, members, orders, k);
    assert c in Elements(orders[k]);
    TakenHas(orders[..k], j);
    TakenGrows(orders, j, k);
  }

  /** A part that is not full has no affine source left in a later part that would still have fitted. */
  lemma LocallyMaximal(
      adj: Adjacency, weights: map<Id, int>, bounds: Bounds, members: set<Id>, orders: seq<seq<Id>>, j: nat, k: nat, p: Id, c: Id)
    requires GreedySplit(adj, weights, bounds, members, orders) && j < k < |orders|
    requires |orders[j]| < bounds.sources && p in orders[j] && c in orders[k] && (c, p) in adj
    ensures bounds.populations.Some? && Load(weights, orders[j]) + Weight(weights, c) > bounds.populations.value
  {
    PartFacts(adj, weights, bounds, members, orders, j);
    LaterIsLeftOver(adj, weights, bounds, members, orders, j, k, c);
    ClosedRefuses(adj, weights, bounds, members - Taken(orders[..j]), orders[j], p, c);
  }

  lemma ClosedRefuses(adj: Adjacency, weights: map<Id, int>, bounds: Bounds, remaining: set<Id>, order: seq<Id>, p: Id, c: Id)
    requires Closed(adj, weights, bounds, remaining, order) && |order| < bounds.sources
    requires p in order && c in remaining && c !in Elements(order) && (c, p) in adj
    ensures !Affordable(bounds, Load(weights, order) + Weight(weights, c))
  {
    assert c !in Candidates(adj, weights, bounds, remaining - Elements(order), order);
  }

  lemma {:induction false} TakenGrows(orders: seq<seq<Id>>, j: nat, k: nat)
    requires j <= k <= |orders|
    ensures Taken(orders[..j]) <= Taken(orders[..k])
    decreases k
  {
    if j < k {
      TakenGrows(orders, j, k - 1);
      assert orders[..k][..k - 1] == orders[..k - 1];
    }
  }

  lemma {:induction false} TakenIsCovered(orders: seq<seq<Id>>, x: Id) returns (k: nat)
    requires x in Taken(orders)
    ensures k < |orders| && x in orders[k]
  {
    if x in Elements(orders[|orders| - 1]) {
      k := |orders| - 1;
    } else {
      k := TakenIsCovered(orders[..|orders| - 1], x);
    }
  }

  // --- the load of a part does not depend on its order ------------------------------------------------

  lemma {:induction false} LoadRemove(weights: map<Id, int>, xs: seq<Id>, k: nat)
    requires k < |xs|
    ensures Load(weights, xs) == Load(weights, xs[..k] + xs[k + 1..]) + Weight(weights, xs[k])
  {
    if k == |xs| - 1 {
      assert xs[..k] + xs[k + 1..] == xs[..|xs| - 1];
    } else {
      var init, without := xs[..|xs| - 1], xs[..k] + xs[k + 1..];
      LoadRemove(weights, init, k);
      assert without[..|without| - 1] == init[..k] + init[k + 1..];
      assert without[|without| - 1] == xs[|xs| - 1];
    }
  }

  lemma {:induction false} LoadOfSameElements(weights: map<Id, int>, xs: seq<Id>, ys: seq<Id>)
    requires Distinct(xs) && Distinct(ys) && Elements(xs) == Elements(ys)
    ensures Load(weights, xs) == Load(weights, ys)
    decreases |ys|
  {
    DistinctSize(xs);
    DistinctSize(ys);
    if ys != [] {
      var last := ys[|ys| - 1];
      assert last in Elements(xs);
      var k: nat :| k < |xs| && xs[k] == last;
      var without := xs[..k] + xs[k + 1..];
      LoadRemove(weights, xs, k);
      assert forall x :: x in without ==> x in xs;
      assert forall i :: 0 <= i < |without| ==> without[i] == xs[if i < k then i else i + 1];
      forall x ensures x in Elements(without) <==> x in Elements(ys[..|ys| - 1]) {
        SameButOne(xs, ys, k, x);
      }
      LoadOfSameElements(weights, without, ys[..|ys| - 1]);
    }
  }

  lemma SameButOne(xs: seq<Id>, ys: seq<Id>, k: nat, x: Id)
    requires Distinct(xs) && Distinct(ys) && Elements(xs) == Elements(ys) && ys != [] && k < |xs| && xs[k] == ys[|ys| - 1]
    ensures x in xs[..k] + xs[k + 1..] <==> x in ys[..|ys| - 1]
  {
    var without := xs[..k] + xs[k + 1..];
    assert x in xs <==> x in Elements(ys);
    assert ys == ys[..|ys| - 1] + [ys[|ys| - 1]];
    assert xs == xs[..k] + [xs[k]] + xs[k + 1..];
    assert x in without && x != xs[k] ==> x in xs;
  }

  lemma AscendingIsDistinct(xs: seq<Id>)
    requires Ascending(xs)
    ensures Distinct(xs)
  {
  }

  // --- the partition of one neighbourhood ----------------------------------------------------------------

  /** Bounded, disjoint, sorted parts that cover the members. */
  ghost predicate GoodParts(weights: map<Id, int>, bounds: Bounds, members: set<Id>, parts: seq<seq<Id>>) {
    && (forall k :: 0 <= k < |parts| ==> Ascending(parts[k]) && WithinBounds(weights, bounds, parts[k]))
    && (forall j, k :: 0 <= j < k < |parts| ==> Elements(parts[j]) !! Elements(parts[k]))
    && (forall x :: x in members <==> exists k :: 0 <= k < |parts| && x in parts[k])
  }

  lemma SortedPartIsGood(adj: Adjacency, weights: map<Id, int>, bounds: Bounds, remaining: set<Id>, order: seq<Id>)
    requires Grown(adj, weights, bounds, remaining, order)
    ensures WithinBounds(weights, bounds, SortedSet(Elements(order)))
  {
    GrownWithin(adj, weights, bounds, remaining, order);
    GrownWithinBounds(adj, weights, bounds, remaining, order);
    AscendingIsDistinct(SortedSet(Elements(order)));
    DistinctSize(order);
    LoadOfSameElements(weights, order, SortedSet(Elements(order)));
  }

  lemma WholeIsGood(weights: map<Id, int>, bounds: Bounds, members: set<Id>)
    requires members != {} && FitsWhole(weights, bounds, SortedSet(members))
    ensures GoodParts(weights, bounds, members, [SortedSet(members)])
  {
    var parts := [SortedSet(members)];
    forall x ensures x in members <==> exists k :: 0 <= k < |parts| && x in parts[k] {
      assert x in members <==> x in Elements(parts[0]);
    }
  }

  lemma SplitIsGood(adj: Adjacency, weights: map<Id, int>, bounds: Bounds, members: set<Id>, orders: seq<seq<Id>>, parts: seq<seq<Id>>)
    requires GreedySplit(adj, weights, bounds, members, orders) && Taken(orders) == members && Listed(orders, parts)
    ensures GoodParts(weights, bounds, members, parts)
  {
    forall k | 0 <= k < |parts| ensures Ascending(parts[k]) && WithinBounds(weights, bounds, parts[k]) && Elements(parts[k]) == Elements(orders[k]) {
      PartFacts(adj, weights, bounds, members, orders, k);
      SortedPartIsGood(adj, weights, bounds, members - Taken(orders[..k]), orders[k]);
    }
    forall j, k | 0 <= j < k < |parts| ensures Elements(parts[j]) !! Elements(parts[k]) {
      PartsDisjoint(adj, weights, bounds, members, orders, j, k);
    }
    ListedCover(members, orders, parts);
  }

  lemma ListedCover(members: set<Id>, orders: seq<seq<Id>>, parts: seq<seq<Id>>)
    requires Taken(orders) == members && Listed(orders, parts)
    ensures forall x :: x in members <==> exists k :: 0 <= k < |parts| && x in parts[k]
  {
    forall x ensures x in members <==> exists k :: 0 <= k < |parts| && x in parts[k] {
      if x in members {
        var k := TakenIsCovered(orders, x);
        assert x in Elements(parts[k]);
      }
      if k :| 0 <= k < |parts| && x in parts[k] {
        assert x in Elements(parts[k]);
        TakenHas(orders, k);
      }
    }
  }

  /** The parts of one neighbourhood: all of it when it fits, otherwise the greedy split. */
  method Partition(members: seq<Id>, edges: seq<Affinity>, bounds: Bounds, weights: map<Id, int>)
    returns (parts: seq<seq<Id>>, ghost orders: seq<seq<Id>>)
    ensures FitsWhole(weights, bounds, SortedSet(Elements(members))) ==> parts == [SortedSet(Elements(members))]
    ensures !FitsWhole(weights, bounds, SortedSet(Elements(members))) ==>
      && GreedySplit(AdjacencyOf(edges, Elements(members)), weights, bounds, Elements(members), orders)
      && Taken(orders) == Elements(members)
      && Listed(orders, parts)
    ensures |Elements(members)| <= bounds.sources && (bounds.populations.Some? ==> Load(weights, SortedSet(Elements(members))) <= bounds.populations.value)
      <==> FitsWhole(weights, bounds, SortedSet(Elements(members)))
    ensures members != [] ==> GoodParts(weights, bounds, Elements(members), parts)
  {
    var ordered := SortedSet(Elements(members));
    if FitsWhole(weights, bounds, ordered) {
      if members != [] {
        assert members[0] in Elements(members);
        WholeIsGood(weights, bounds, Elements(members));
      }
      return [ordered], [];
    }
    parts, orders := Split(AdjacencyOf(edges, Elements(members)), weights, bounds, Elements(members));
    SplitIsGood(AdjacencyOf(edges, Elements(members)), weights, bounds, Elements(members), orders, parts);
  }
}
