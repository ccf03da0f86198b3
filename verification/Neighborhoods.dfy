/**
 Source neighbourhoods: the proposal built from tight and broad affinities, and the
 validator that accepts a proposal as a complete, source-safe partition.
 */
module Neighborhoods {
  import opened Wrappers
  import opened Ordering
  import Affinities = MutualEdges
  import Components

  type Affinity = Affinities.Affinity

  datatype Neighborhood = Neighborhood(id: Id, members: seq<Id>)

  datatype Bridge = Bridge(leftNeighborhood: Id, rightNeighborhood: Id, edge: Affinity)

  datatype Nearest = Nearest(source: Id, neighbor: Id)

  datatype Proposal = Proposal(
    sources: seq<Id>, nearest: seq<Nearest>, tight: seq<Affinity>, neighborhoods: seq<Neighborhood>, bridges: seq<Bridge>)

  datatype ProposalError =
    | NoSources | DuplicateSource | SourceOutsideCorpus
    | NoNeighborhoods | DuplicateNeighborhood | NoMembers | UnknownMember | Overlap | NotAPartition
    | UnknownEndpoint | UnknownBridgeSource | BadBridgeNeighborhoods | BridgeDisagrees

  // --- the validator --------------------------------------------------------------------------

  /** Which neighbourhood a source belongs to; a later listing wins, as in the code's dictionary. */
  function HomeMap(ns: seq<Neighborhood>): map<Id, Id> {
    if ns == [] then map[]
    else HomeMap(ns[..|ns| - 1]) + HomesIn(ns[|ns| - 1])
  }

  function HomesIn(n: Neighborhood): map<Id, Id> {
    map s | s in n.members :: n.id
  }

  function AllMembers(ns: seq<Neighborhood>): seq<Id> {
    if ns == [] then [] else AllMembers(ns[..|ns| - 1]) + ns[|ns| - 1].members
  }

  lemma {:induction false} HomesAreMembers(ns: seq<Neighborhood>)
    ensures HomeMap(ns).Keys == Elements(AllMembers(ns))
  {
    if ns != [] {
      HomesAreMembers(ns[..|ns| - 1]);
    }
  }

  lemma {:induction false} MembersAreMembers(ns: seq<Neighborhood>, s: Id)
    ensures s in AllMembers(ns) <==> exists n :: n in ns && s in n.members
  {
    if ns != [] {
      MembersAreMembers(ns[..|ns| - 1], s);
      assert ns == ns[..|ns| - 1] + [ns[|ns| - 1]];
    }
  }

  predicate BridgeAgrees(p: Proposal, b: Bridge) {
    var home := HomeMap(p.neighborhoods);
    && b.edge.left in p.sources && b.edge.right in p.sources
    && (exists n :: n in p.neighborhoods && n.id == b.leftNeighborhood)
    && (exists n :: n in p.neighborhoods && n.id == b.rightNeighborhood)
    && b.leftNeighborhood != b.rightNeighborhood
    && b.edge.left in home && b.edge.right in home
    && {home[b.edge.left], home[b.edge.right]} == {b.leftNeighborhood, b.rightNeighborhood}
  }

  predicate EndpointsKnown(p: Proposal) {
    && (forall e :: e in p.tight ==> e.left in p.sources && e.right in p.sources)
    && (forall n :: n in p.nearest ==> n.source in p.sources && n.neighbor in p.sources)
  }

  predicate DistinctIds(ns: seq<Neighborhood>) {
    forall i, j :: 0 <= i < j < |ns| ==> ns[i].id != ns[j].id
  }

  predicate IsPartition(sources: seq<Id>, ns: seq<Neighborhood>) {
    && DistinctIds(ns)
    && (forall n :: n in ns ==> n.members != [])
    && Distinct(AllMembers(ns))
    && Elements(AllMembers(ns)) == Elements(sources)
  }

  predicate ValidProposal(available: set<Id>, p: Proposal) {
    && p.sources != [] && Distinct(p.sources) && Elements(p.sources) <= available
    && p.neighborhoods != [] && IsPartition(p.sources, p.neighborhoods)
    && EndpointsKnown(p)
    && (forall b :: b in p.bridges ==> BridgeAgrees(p, b))
  }

  method ValidateSources(available: set<Id>, sources: seq<Id>) returns (r: Option<ProposalError>)
    ensures r.None? <==> sources != [] && Distinct(sources) && Elements(sources) <= available
  {
    if sources == [] {
      return Some(NoSources);
    }
    var proposed: set<Id> := {};
    for i := 0 to |sources|
      invariant proposed == Elements(sources[..i]) && Distinct(sources[..i]) && proposed <= available
    {
      if sources[i] in proposed {
        assert exists k :: 0 <= k < i && sources[..i][k] == sources[i];
        return Some(DuplicateSource);
      }
      if sources[i] !in available {
        assert sources[i] in Elements(sources);
        return Some(SourceOutsideCorpus);
      }
      assert sources[..i + 1] == sources[..i] + [sources[i]];
      DistinctMore(sources[..i], sources[i]);
      proposed := proposed + {sources[i]};
    }
    assert sources[..|sources|] == sources;
    return None;
  }

  /** What the partition loop has gathered from the neighbourhoods read so far. */
  ghost predicate Gathered(sources: seq<Id>, ns: seq<Neighborhood>, ids: set<Id>, home: map<Id, Id>, members: seq<Id>) {
    && ids == IdsOf(ns)
    && home == HomeMap(ns) && members == AllMembers(ns)
    && DistinctIds(ns)
    && (forall n :: n in ns ==> n.members != [])
    && (forall s :: s in members ==> s in sources)
  }

  function IdsOf(ns: seq<Neighborhood>): set<Id> {
    set n | n in ns :: n.id
  }

  lemma IdsMore(ns: seq<Neighborhood>, n: Neighborhood)
    ensures IdsOf(ns + [n]) == IdsOf(ns) + {n.id}
  {
    var more := ns + [n];
    forall x ensures x in IdsOf(more) <==> x in IdsOf(ns) + {n.id} {
      if x in IdsOf(ns) {
        var m :| m in ns && m.id == x;
        assert m in more;
      }
      assert n in more;
    }
  }

  lemma MembersMore(ns: seq<Neighborhood>, n: Neighborhood)
    ensures HomeMap(ns + [n]) == HomeMap(ns) + HomesIn(n) && AllMembers(ns + [n]) == AllMembers(ns) + n.members
  {
    var more := ns + [n];
    assert more[..|more| - 1] == ns && more[|more| - 1] == n;
  }

  lemma GatherOne(sources: seq<Id>, ns: seq<Neighborhood>, ids: set<Id>, home: map<Id, Id>, members: seq<Id>, n: Neighborhood)
    requires Gathered(sources, ns, ids, home, members)
    requires n.id !in ids && n.members != [] && forall s :: s in n.members ==> s in sources
    ensures Gathered(sources, ns + [n], ids + {n.id}, home + HomesIn(n), members + n.members)
  {
    IdsMore(ns, n);
    MembersMore(ns, n);
    NewIdIsDistinct(ns, n);
    forall m | m in ns + [n] ensures m.members != [] {
      assert m in ns || m == n;
    }
    forall s | s in members + n.members ensures s in sources {
      assert s in members || s in n.members;
    }
  }

  lemma NewIdIsDistinct(ns: seq<Neighborhood>, n: Neighborhood)
    requires DistinctIds(ns) && n.id !in IdsOf(ns)
    ensures DistinctIds(ns + [n])
  {
    forall j | 0 <= j < |ns| ensures ns[j].id != n.id {
      assert ns[j] in ns;
    }
  }

  method ValidatePartition(sources: seq<Id>, ns: seq<Neighborhood>) returns (r: Option<ProposalError>, home: map<Id, Id>, ids: set<Id>)
    ensures r.None? <==> ns != [] && IsPartition(sources, ns)
    ensures r.None? ==> home == HomeMap(ns) && ids == IdsOf(ns)
  {
    ids, home := {}, map[];
    if ns == [] {
      return Some(NoNeighborhoods), home, ids;
    }
    var members: seq<Id> := [];
    for i := 0 to |ns|
      invariant Gathered(sources, ns[..i], ids, home, members)
    {
      if ns[i].id in ids {
        assert exists k :: 0 <= k < i && ns[..i][k].id == ns[i].id;
        return Some(DuplicateNeighborhood), home, ids;
      }
      if ns[i].members == [] {
        assert ns[i] in ns;
        return Some(NoMembers), home, ids;
      }
      if exists s :: s in ns[i].members && s !in sources {
        assert ns[i] in ns;
        assert Elements(AllMembers(ns)) != Elements(sources) by {
          var s :| s in ns[i].members && s !in sources;
          MembersAreMembers(ns, s);
          assert s in Elements(AllMembers(ns)) && s !in Elements(sources);
        }
        return Some(UnknownMember), home, ids;
      }
      GatherOne(sources, ns[..i], ids, home, members, ns[i]);
      assert ns[..i + 1] == ns[..i] + [ns[i]];
      ids := ids + {ns[i].id};
      members := members + ns[i].members;
      home := home + HomesIn(ns[i]);
    }
    assert ns[..|ns|] == ns;
    if !Distinct(members) {
      return Some(Overlap), home, ids;
    }
    if Elements(members) != Elements(sources) {
      return Some(NotAPartition), home, ids;
    }
    return None, home, ids;
  }

  method ValidateEndpoints(p: Proposal) returns (ok: bool)
    ensures ok <==> EndpointsKnown(p)
  {
    for i := 0 to |p.tight|
      invariant forall e :: e in p.tight[..i] ==> e.left in p.sources && e.right in p.sources
    {
      if p.tight[i].left !in p.sources || p.tight[i].right !in p.sources {
        assert p.tight[i] in p.tight;
        return false;
      }
      assert p.tight[..i + 1] == p.tight[..i] + [p.tight[i]];
    }
    assert p.tight[..|p.tight|] == p.tight;
    for i := 0 to |p.nearest|
      invariant forall n :: n in p.nearest[..i] ==> n.source in p.sources && n.neighbor in p.sources
    {
      if p.nearest[i].source !in p.sources || p.nearest[i].neighbor !in p.sources {
        assert p.nearest[i] in p.nearest;
        return false;
      }
      assert p.nearest[..i + 1] == p.nearest[..i] + [p.nearest[i]];
    }
    assert p.nearest[..|p.nearest|] == p.nearest;
    return true;
  }

  method ValidateBridges(p: Proposal, home: map<Id, Id>, ids: set<Id>) returns (r: Option<ProposalError>)
    requires home == HomeMap(p.neighborhoods) && ids == IdsOf(p.neighborhoods)
    requires home.Keys == Elements(p.sources)
    ensures r.None? <==> forall b :: b in p.bridges ==> BridgeAgrees(p, b)
  {
    for i := 0 to |p.bridges|
      invariant forall b :: b in p.bridges[..i] ==> BridgeAgrees(p, b)
    {
      var b := p.bridges[i];
      assert b in p.bridges;
      if b.edge.left !in p.sources || b.edge.right !in p.sources {
        return Some(UnknownBridgeSource);
      }
      assert b.edge.left in home.Keys && b.edge.right in home.Keys;
      if b.leftNeighborhood !in ids || b.rightNeighborhood !in ids || b.leftNeighborhood == b.rightNeighborhood {
        return Some(BadBridgeNeighborhoods);
      }
      if {home[b.edge.left], home[b.edge.right]} != {b.leftNeighborhood, b.rightNeighborhood} {
        return Some(BridgeDisagrees);
      }
      assert p.bridges[..i + 1] == p.bridges[..i] + [b];
    }
    assert p.bridges[..|p.bridges|] == p.bridges;
    return None;
  }

  method Validate(available: set<Id>, p: Proposal) returns (r: Option<ProposalError>)
    ensures r.None? <==> ValidProposal(available, p)
  {
    r := ValidateSources(available, p.sources);
    if r.None? {
      var home, ids;
      r, home, ids := ValidatePartition(p.sources, p.neighborhoods);
      if r.None? {
        var ok := ValidateEndpoints(p);
        if !ok {
          return Some(UnknownEndpoint);
        }
        HomesAreMembers(p.neighborhoods);
        r := ValidateBridges(p, home, ids);
      }
    }
  }

  // --- bridges: the strongest broad edge between each two neighbourhoods -------------------------

  function PairOf(home: map<Id, Id>, e: Affinity): (Id, Id)
    requires e.left in home && e.right in home
  {
    if home[e.left] < home[e.right] then (home[e.left], home[e.right]) else (home[e.right], home[e.left])
  }

  ghost predicate Crosses(home: map<Id, Id>, e: Affinity, pair: (Id, Id)) {
    e.left in home && e.right in home && pair.0 < pair.1 && {home[e.left], home[e.right]} == {pair.0, pair.1}
  }

  /** Exactly the crossed pairs have a bridge, and it is a strongest edge crossing that pair. */
  ghost predicate Strongest(home: map<Id, Id>, edges: seq<Affinity>, best: map<(Id, Id), Affinity>) {
    && (forall pair :: pair in best ==> exists k: nat :: FirstStrongest(home, edges, pair, best[pair], k))
    && (forall e, pair :: e in edges && Crosses(home, e, pair) ==> pair in best && e.similarity <= best[pair].similarity)
  }

  /** The edge crosses the pair, and no earlier one that does is as similar. */
  ghost predicate FirstStrongest(home: map<Id, Id>, edges: seq<Affinity>, pair: (Id, Id), e: Affinity, k: nat) {
    && k < |edges| && edges[k] == e && Crosses(home, e, pair)
    && forall j :: 0 <= j < k && Crosses(home, edges[j], pair) ==> edges[j].similarity < e.similarity
  }

  lemma PairIsCrossed(home: map<Id, Id>, e: Affinity, pair: (Id, Id))
    requires e.left in home && e.right in home
    ensures home[e.left] != home[e.right] && pair == PairOf(home, e) <==> Crosses(home, e, pair)
  {
    assert home[e.left] in {home[e.left], home[e.right]} && home[e.right] in {home[e.left], home[e.right]};
    if Crosses(home, e, pair) {
      assert pair.0 in {home[e.left], home[e.right]} && pair.1 in {home[e.left], home[e.right]};
    }
  }

  /** More similar bridges first, as similar ones by the neighbourhoods they join. */
  ghost predicate BridgesListed(bridges: seq<Bridge>) {
    forall i, j :: 0 <= i < j < |bridges| ==>
      || bridges[i].edge.similarity > bridges[j].edge.similarity
      || (bridges[i].edge.similarity == bridges[j].edge.similarity &&
          (bridges[i].leftNeighborhood < bridges[j].leftNeighborhood ||
           (bridges[i].leftNeighborhood == bridges[j].leftNeighborhood && bridges[i].rightNeighborhood <= bridges[j].rightNeighborhood)))
  }

  lemma InOrderIsListed(bridges: seq<Bridge>)
    requires InOrder(bridges, BridgeBefore)
    ensures BridgesListed(bridges)
  {
    forall i, j | 0 <= i < j < |bridges| ensures !BridgeBefore(bridges[j], bridges[i]) {
    }
  }

  /** One more edge: kept for its pair when it is the first or more similar than the one kept so far. */
  lemma KeepStrongest(home: map<Id, Id>, edges: seq<Affinity>, best: map<(Id, Id), Affinity>, e: Affinity)
    requires Strongest(home, edges, best) && e.left in home && e.right in home
    ensures home[e.left] == home[e.right] ==> Strongest(home, edges + [e], best)
    ensures home[e.left] != home[e.right] ==>
      var pair := PairOf(home, e);
      Strongest(home, edges + [e], if pair !in best || e.similarity > best[pair].similarity then best[pair := e] else best)
  {
    var pair := PairOf(home, e);
    var now := if home[e.left] != home[e.right] && (pair !in best || e.similarity > best[pair].similarity) then best[pair := e] else best;
    forall p { PairIsCrossed(home, e, p); }
    forall p | p in now ensures exists k: nat :: FirstStrongest(home, edges + [e], p, now[p], k) {
      if p in best && now[p] == best[p] {
        var k: nat :| FirstStrongest(home, edges, p, best[p], k);
        assert FirstStrongest(home, edges + [e], p, now[p], k);
      } else {
        assert FirstStrongest(home, edges + [e], p, now[p], |edges|);
      }
    }
    forall f, p | f in edges + [e] && Crosses(home, f, p) ensures p in now && f.similarity <= now[p].similarity {
      if f in edges {
        assert p in best && f.similarity <= best[p].similarity;
      }
    }
  }

  function BridgesFor(order: seq<(Id, Id)>, best: map<(Id, Id), Affinity>): (bs: seq<Bridge>)
    requires forall pair :: pair in order ==> pair in best
    ensures |bs| == |order|
    ensures forall i :: 0 <= i < |order| ==> bs[i] == Bridge(order[i].0, order[i].1, best[order[i]])
  {
    seq(|order|, i requires 0 <= i < |order| => assert order[i] in order; Bridge(order[i].0, order[i].1, best[order[i]]))
  }

  predicate BridgeBefore(x: Bridge, y: Bridge) {
    x.edge.similarity > y.edge.similarity ||
    (x.edge.similarity == y.edge.similarity &&
     (x.leftNeighborhood < y.leftNeighborhood || (x.leftNeighborhood == y.leftNeighborhood && x.rightNeighborhood < y.rightNeighborhood)))
  }

  /** The bridges of a proposal against its broad edges. */
  ghost predicate BridgesOf(home: map<Id, Id>, edges: seq<Affinity>, bridges: seq<Bridge>, best: map<(Id, Id), Affinity>) {
    && Strongest(home, edges, best)
    && Distinct(bridges) && BridgesListed(bridges)
    && (forall b :: b in bridges <==> (b.leftNeighborhood, b.rightNeighborhood) in best && b.edge == best[(b.leftNeighborhood, b.rightNeighborhood)])
  }

  method DedupBridges(home: map<Id, Id>, edges: seq<Affinity>) returns (bridges: seq<Bridge>, ghost best: map<(Id, Id), Affinity>)
    requires forall e :: e in edges ==> e.left in home && e.right in home
    ensures BridgesOf(home, edges, bridges, best)
  {
    var pairs: map<(Id, Id), Affinity> := map[];
    var order: seq<(Id, Id)> := [];
    for k := 0 to |edges|
      invariant Strongest(home, edges[..k], pairs)
      invariant Distinct(order) && forall pair :: pair in order <==> pair in pairs
    {
      var e := edges[k];
      assert e in edges;
      assert edges[..k + 1] == edges[..k] + [e];
      KeepStrongest(home, edges[..k], pairs, e);
      if home[e.left] != home[e.right] {
        var pair := PairOf(home, e);
        if pair !in pairs {
          DistinctMore(order, pair);
          order := order + [pair];
          pairs := pairs[pair := e];
        } else if e.similarity > pairs[pair].similarity {
          pairs := pairs[pair := e];
        }
      }
    }
    assert edges[..|edges|] == edges;
    best := pairs;
    var listed := BridgesFor(order, pairs);
    bridges := SortBy(listed, BridgeBefore);
    ListedBridges(order, pairs, listed);
    assert StrictWeak(BridgeBefore);
    SortDistinct(listed, BridgeBefore);
    SortKeeps(listed, BridgeBefore);
    InOrderIsListed(bridges);
  }

  lemma ListedBridges(order: seq<(Id, Id)>, best: map<(Id, Id), Affinity>, listed: seq<Bridge>)
    requires Distinct(order) && forall pair :: pair in order <==> pair in best
    requires listed == BridgesFor(order, best)
    ensures Distinct(listed)
    ensures forall b :: b in listed <==> (b.leftNeighborhood, b.rightNeighborhood) in best && b.edge == best[(b.leftNeighborhood, b.rightNeighborhood)]
  {
    forall b ensures b in listed <==> (b.leftNeighborhood, b.rightNeighborhood) in best && b.edge == best[(b.leftNeighborhood, b.rightNeighborhood)] {
      var pair := (b.leftNeighborhood, b.rightNeighborhood);
      if pair in best {
        var i :| 0 <= i < |order| && order[i] == pair;
        assert listed[i] == Bridge(pair.0, pair.1, best[pair]);
      }
      if b in listed {
        var i :| 0 <= i < |listed| && listed[i] == b;
        assert order[i] in order;
      }
    }
  }

  // --- the proposal -------------------------------------------------------------------------------

  /** A stable identifier of a list of source keys; only its injectivity matters. */
  ghost predicate Injective(hash: seq<Id> -> Id) {
    forall a, b :: hash(a) == hash(b) ==> a == b
  }

  function Pairs(edges: seq<Affinity>): (pairs: seq<Components.Edge>)
    ensures |pairs| == |edges| && forall i :: 0 <= i < |edges| ==> pairs[i] == (edges[i].left, edges[i].right)
  {
    seq(|edges|, i requires 0 <= i < |edges| => (edges[i].left, edges[i].right))
  }

  function MemberKeys(keys: seq<Id>, group: seq<nat>): (members: seq<Id>)
    requires forall i :: i in group ==> i < |keys|
    ensures |members| == |group| && forall k :: 0 <= k < |group| ==> group[k] in group && members[k] == keys[group[k]]
  {
    seq(|group|, k requires 0 <= k < |group| => assert group[k] in group; keys[group[k]])
  }

  ghost predicate NamedAfter(keys: seq<Id>, group: seq<nat>, n: Neighborhood, hash: seq<Id> -> Id) {
    (forall i :: i in group ==> i < |keys|) && n.members == MemberKeys(keys, group) && n.id == hash(n.members)
  }

  ghost predicate NamedGroups(keys: seq<Id>, groups: seq<seq<nat>>, ns: seq<Neighborhood>, hash: seq<Id> -> Id) {
    |ns| == |groups| && forall g :: 0 <= g < |groups| ==> NamedAfter(keys, groups[g], ns[g], hash)
  }

  lemma MemberKeysContent(keys: seq<Id>, group: seq<nat>, i: nat)
    requires Distinct(keys) && i < |keys| && forall j :: j in group ==> j < |keys|
    ensures keys[i] in MemberKeys(keys, group) <==> i in group
  {
    if keys[i] in MemberKeys(keys, group) {
      var k :| 0 <= k < |group| && MemberKeys(keys, group)[k] == keys[i];
      assert group[k] in group;
    }
    if i in group {
      var k :| 0 <= k < |group| && group[k] == i;
      assert MemberKeys(keys, group)[k] == keys[i];
    }
  }

  lemma DistinctConcat<T>(a: seq<T>, b: seq<T>)
    requires Distinct(a) && Distinct(b) && forall k :: 0 <= k < |b| ==> b[k] !in a
    ensures Distinct(a + b)
  {
    forall i, j | 0 <= i < |a| && 0 <= j < |b| ensures a[i] != b[j] {
      assert a[i] in a;
    }
  }

  /** No source is listed by two neighbourhoods, nor twice by one. */
  ghost predicate Disjoint(ns: seq<Neighborhood>) {
    && (forall g :: 0 <= g < |ns| ==> Distinct(ns[g].members))
    && (forall g, h, s :: 0 <= g < h < |ns| && s in ns[g].members ==> s !in ns[h].members)
  }

  lemma {:induction false} DisjointIsDistinct(ns: seq<Neighborhood>)
    requires Disjoint(ns)
    ensures Distinct(AllMembers(ns))
  {
    if ns != [] {
      var init, last := ns[..|ns| - 1], ns[|ns| - 1];
      DisjointIsDistinct(init);
      forall k | 0 <= k < |last.members| ensures last.members[k] !in AllMembers(init) {
        MembersAreMembers(init, last.members[k]);
        assert last.members[k] in last.members;
      }
      DistinctConcat(AllMembers(init), last.members);
    }
  }

  lemma {:induction false} DisjointHomes(ns: seq<Neighborhood>, g: nat, s: Id)
    requires Disjoint(ns) && g < |ns| && s in ns[g].members
    ensures s in HomeMap(ns) && HomeMap(ns)[s] == ns[g].id
  {
    var init := ns[..|ns| - 1];
    if g < |init| {
      assert init[g] == ns[g];
      DisjointHomes(init, g, s);
    }
  }

  /** The members named after one group are its keys, each once. */
  lemma OneGroup(keys: seq<Id>, groups: seq<seq<nat>>, n: Neighborhood, hash: seq<Id> -> Id, k: nat)
    requires Distinct(keys) && k < |groups| && NamedAfter(keys, groups[k], n, hash) && Distinct(groups[k])
    ensures Distinct(n.members)
    ensures forall s :: s in n.members ==> exists i :: 0 <= i < |keys| && keys[i] == s && i in groups[k]
    ensures forall i: nat :: i < |keys| && i in groups[k] ==> keys[i] in n.members
  {
    var group := groups[k];
    forall i: nat | i < |keys| && i in group ensures keys[i] in n.members {
      MemberKeysContent(keys, group, i);
    }
    forall a, b | 0 <= b < a < |n.members| ensures n.members[b] != n.members[a] {
      assert group[a] in group && group[b] in group;
    }
    forall s | s in n.members ensures exists i :: 0 <= i < |keys| && keys[i] == s && i in group {
      var a :| 0 <= a < |n.members| && n.members[a] == s;
      assert group[a] in group;
    }
  }

  lemma NamedAreDisjoint(keys: seq<Id>, edges: seq<Components.Edge>, groups: seq<seq<nat>>, ns: seq<Neighborhood>, hash: seq<Id> -> Id)
    requires Distinct(keys) && Components.ComponentsOf(keys, edges, groups) && NamedGroups(keys, groups, ns, hash)
    ensures Disjoint(ns)
  {
    forall g | 0 <= g < |ns| ensures Distinct(ns[g].members) {
      assert NamedAfter(keys, groups[g], ns[g], hash);
      OneGroup(keys, groups, ns[g], hash, g);
    }
    forall g, h, s | 0 <= g < h < |ns| && s in ns[g].members ensures s !in ns[h].members {
      assert NamedAfter(keys, groups[g], ns[g], hash) && NamedAfter(keys, groups[h], ns[h], hash);
      OneGroup(keys, groups, ns[g], hash, g);
      OneGroup(keys, groups, ns[h], hash, h);
      var i :| 0 <= i < |keys| && keys[i] == s && i in groups[g];
      Components.ConnectedSelf(keys, edges, i);
    }
  }

  /** The group a key is in, and with it the neighbourhood that is its home. */
  lemma HomeOfKey(keys: seq<Id>, edges: seq<Components.Edge>, groups: seq<seq<nat>>, ns: seq<Neighborhood>, hash: seq<Id> -> Id, i: nat)
    returns (g: nat)
    requires Distinct(keys) && Components.ComponentsOf(keys, edges, groups) && NamedGroups(keys, groups, ns, hash) && i < |keys|
    ensures g < |groups| && i in groups[g] && keys[i] in ns[g].members
    ensures keys[i] in HomeMap(ns) && HomeMap(ns)[keys[i]] == ns[g].id
  {
    NamedAreDisjoint(keys, edges, groups, ns, hash);
    assert Components.InSomeGroup(groups, i);
    g :| 0 <= g < |groups| && i in groups[g];
    assert NamedAfter(keys, groups[g], ns[g], hash);
    OneGroup(keys, groups, ns[g], hash, g);
    DisjointHomes(ns, g, keys[i]);
  }

  lemma NamedIdsDistinct(keys: seq<Id>, edges: seq<Components.Edge>, groups: seq<seq<nat>>, ns: seq<Neighborhood>, hash: seq<Id> -> Id)
    requires Distinct(keys) && Components.ComponentsOf(keys, edges, groups) && NamedGroups(keys, groups, ns, hash) && Injective(hash)
    ensures forall g, h :: 0 <= g < h < |ns| ==> ns[g].id != ns[h].id
    ensures forall n :: n in ns ==> n.members != []
  {
    NamedAreDisjoint(keys, edges, groups, ns, hash);
    forall g | 0 <= g < |ns| ensures ns[g].members != [] && ns[g].id == hash(ns[g].members) {
      assert NamedAfter(keys, groups[g], ns[g], hash);
    }
    forall g, h | 0 <= g < h < |ns| ensures ns[g].id != ns[h].id {
      assert ns[g].members[0] in ns[g].members;
    }
  }

  /** Two sources share a neighbourhood exactly when tight affinities connect them. */
  ghost predicate HomesAreComponents(keys: seq<Id>, edges: seq<Components.Edge>, home: map<Id, Id>) {
    && (forall i :: 0 <= i < |keys| ==> keys[i] in home)
    && (forall i, j :: 0 <= i < |keys| && 0 <= j < |keys| ==>
          (home[keys[i]] == home[keys[j]] <==> Components.Connected(keys, edges, i, j)))
  }

  lemma MembersAreKeys(keys: seq<Id>, edges: seq<Components.Edge>, groups: seq<seq<nat>>, ns: seq<Neighborhood>, hash: seq<Id> -> Id)
    requires Distinct(keys) && Components.ComponentsOf(keys, edges, groups) && NamedGroups(keys, groups, ns, hash)
    ensures Elements(AllMembers(ns)) == Elements(keys)
  {
    forall s ensures s in AllMembers(ns) <==> s in keys {
      MembersAreMembers(ns, s);
      if s in keys {
        var i: nat :| i < |keys| && keys[i] == s;
        var g := HomeOfKey(keys, edges, groups, ns, hash, i);
        assert ns[g] in ns;
      }
      if s in AllMembers(ns) {
        var n :| n in ns && s in n.members;
        var g :| 0 <= g < |ns| && ns[g] == n;
        assert NamedAfter(keys, groups[g], n, hash);
        OneGroup(keys, groups, n, hash, g);
      }
    }
  }

  lemma ComponentsArePartition(keys: seq<Id>, edges: seq<Components.Edge>, groups: seq<seq<nat>>, ns: seq<Neighborhood>, hash: seq<Id> -> Id)
    requires Distinct(keys) && Components.ComponentsOf(keys, edges, groups) && NamedGroups(keys, groups, ns, hash) && Injective(hash)
    ensures IsPartition(keys, ns) && HomesAreComponents(keys, edges, HomeMap(ns))
  {
    NamedAreDisjoint(keys, edges, groups, ns, hash);
    DisjointIsDistinct(ns);
    NamedIdsDistinct(keys, edges, groups, ns, hash);
    MembersAreKeys(keys, edges, groups, ns, hash);
    forall i, j | 0 <= i < |keys| && 0 <= j < |keys|
      ensures keys[i] in HomeMap(ns) && keys[j] in HomeMap(ns)
      ensures HomeMap(ns)[keys[i]] == HomeMap(ns)[keys[j]] <==> Components.Connected(keys, edges, i, j)
    {
      var g := HomeOfKey(keys, edges, groups, ns, hash, i);
      var h := HomeOfKey(keys, edges, groups, ns, hash, j);
      assert g == h <==> Components.Connected(keys, edges, i, j);
      assert g == h <==> ns[g].id == ns[h].id;
    }
  }

  method NameGroups(keys: seq<Id>, groups: seq<seq<nat>>, hash: seq<Id> -> Id) returns (ns: seq<Neighborhood>)
    requires forall g, i :: 0 <= g < |groups| && i in groups[g] ==> i < |keys|
    ensures NamedGroups(keys, groups, ns, hash)
  {
    ns := [];
    for g := 0 to |groups|
      invariant |ns| == g && forall h :: 0 <= h < g ==> NamedAfter(keys, groups[h], ns[h], hash)
    {
      var members := MemberKeys(keys, groups[g]);
      ns := ns + [Neighborhood(hash(members), members)];
    }
  }

  /** The closest other source of every source. */
  ghost predicate NearestOf(m: Affinities.Matrix, i: nat, n: Nearest) {
    && i < |m.keys| && n.source == m.keys[i]
    && exists j: nat :: j < |m.keys| && j != i && n.neighbor == m.keys[j] && Affinities.Closer(m, i, j) == {}
  }

  method FindNearest(m: Affinities.Matrix) returns (nearest: seq<Nearest>)
    requires Affinities.Square(m) && |m.keys| > 1
    ensures |nearest| == |m.keys| && forall i: nat :: i < |m.keys| ==> NearestOf(m, i, nearest[i])
  {
    nearest := [];
    for i := 0 to |m.keys|
      invariant |nearest| == i && forall j: nat :: j < i ==> NearestOf(m, j, nearest[j])
    {
      Affinities.RankingOrder(m, i);
      Affinities.RankingCounts(m, i, 0);
      var j := Affinities.Ranking(m, i)[0];
      nearest := nearest + [Nearest(m.keys[i], m.keys[j])];
    }
  }

  /** Everything promised of a proposal over one similarity matrix. */
  ghost predicate ProposalOf(m: Affinities.Matrix, tight: Affinities.Gate, broad: Affinities.Gate, p: Proposal, best: map<(Id, Id), Affinity>) {
    && p.sources == m.keys
    && (forall e :: e in p.tight <==> Affinities.Emitted(m, tight, e))
    && HomesAreComponents(m.keys, Pairs(p.tight), HomeMap(p.neighborhoods))
    && (|m.keys| > 1 ==> |p.nearest| == |m.keys| && forall i: nat :: i < |m.keys| ==> NearestOf(m, i, p.nearest[i]))
    && exists edges ::
         (forall e :: e in edges <==> Affinities.Emitted(m, broad, e)) &&
         BridgesOf(HomeMap(p.neighborhoods), edges, p.bridges, best)
  }

  lemma EmittedEndpoints(m: Affinities.Matrix, gate: Affinities.Gate, e: Affinity)
    requires Affinities.Square(m) && Affinities.Emitted(m, gate, e)
    ensures e.left in m.keys && e.right in m.keys
  {
  }

  lemma BridgesAgree(p: Proposal, home: map<Id, Id>, edges: seq<Affinity>, best: map<(Id, Id), Affinity>)
    requires home == HomeMap(p.neighborhoods) && BridgesOf(home, edges, p.bridges, best)
    requires forall e :: e in edges ==> e.left in p.sources && e.right in p.sources
    ensures forall b :: b in p.bridges ==> BridgeAgrees(p, b)
  {
    forall b | b in p.bridges ensures BridgeAgrees(p, b) {
      assert Crosses(home, b.edge, (b.leftNeighborhood, b.rightNeighborhood)) && b.edge in edges;
      HomeIsListed(p.neighborhoods, b.edge.left);
      HomeIsListed(p.neighborhoods, b.edge.right);
    }
  }

  lemma {:induction false} HomeIsListed(ns: seq<Neighborhood>, s: Id)
    requires s in HomeMap(ns)
    ensures exists n :: n in ns && n.id == HomeMap(ns)[s]
  {
    var last := ns[|ns| - 1];
    assert ns == ns[..|ns| - 1] + [last];
    if s in last.members {
      assert last in ns;
    } else {
      HomeIsListed(ns[..|ns| - 1], s);
    }
  }

  /** The proposal a matrix gives, always accepted by the validator. */
  method Propose(m: Affinities.Matrix, tight: Affinities.Gate, broad: Affinities.Gate, available: set<Id>, hash: seq<Id> -> Id)
    returns (p: Proposal, ghost best: map<(Id, Id), Affinity>)
    requires Affinities.Square(m) && m.keys != [] && Elements(m.keys) <= available && Injective(hash)
    ensures ProposalOf(m, tight, broad, p, best)
    ensures ValidProposal(available, p)
  {
    var tightEdges := Affinities.Edges(m, tight);
    var broadEdges := Affinities.Edges(m, broad);
    forall e | e in tightEdges ensures e.left in m.keys && e.right in m.keys { EmittedEndpoints(m, tight, e); }
    forall e | e in broadEdges ensures e.left in m.keys && e.right in m.keys { EmittedEndpoints(m, broad, e); }
    var groups := Components.ConnectedComponents(m.keys, Pairs(tightEdges));
    var neighborhoods := NameGroups(m.keys, groups, hash);
    ComponentsArePartition(m.keys, Pairs(tightEdges), groups, neighborhoods, hash);
    HomesAreMembers(neighborhoods);
    var home := HomeMap(neighborhoods);
    assert home.Keys == Elements(m.keys);
    var bridges;
    bridges, best := DedupBridges(home, broadEdges);
    var nearest := [];
    if |m.keys| > 1 {
      nearest := FindNearest(m);
    }
    p := Proposal(m.keys, nearest, tightEdges, neighborhoods, bridges);
    BridgesAgree(p, home, broadEdges, best);
    forall n | n in p.nearest ensures n.source in m.keys && n.neighbor in m.keys {
      var i: nat :| i < |p.nearest| && p.nearest[i] == n;
      assert NearestOf(m, i, n);
    }
    assert neighborhoods != [] by {
      assert m.keys[0] in Elements(AllMembers(neighborhoods));
    }
  }
}
