/**
 Links between excavation units: for every two units an affinity or a bridge connects, the
 strongest one is nominated, and the validator's rules for the list of links.
 */
module ExcavationLinks {
  import opened Wrappers
  import opened Ordering
  import opened ExcavationUnits
  import Neighborhoods

  type Affinity = Neighborhoods.Affinity

  datatype Link = Link(id: Id, kind: LinkKind, leftUnit: Id, rightUnit: Id, edge: Affinity)

  // --- which unit a source is in -----------------------------------------------------------------

  function UnitMap(units: seq<Unit>): map<Id, Id> {
    if units == [] then map[] else UnitMap(units[..|units| - 1]) + SourcesIn(units[|units| - 1])
  }

  function SourcesIn(u: Unit): map<Id, Id> {
    map s | s in u.sources :: u.id
  }

  lemma {:induction false} UnitOfSource(units: seq<Unit>, g: nat, s: Id)
    requires Apart(units) && g < |units| && s in units[g].sources
    ensures s in UnitMap(units) && UnitMap(units)[s] == units[g].id
  {
    var init := units[..|units| - 1];
    if g < |init| {
      assert init[g] == units[g];
      UnitOfSource(init, g, s);
    }
  }

  lemma {:induction false} MappedSources(units: seq<Unit>)
    ensures UnitMap(units).Keys == Elements(AllSources(units))
  {
    if units != [] {
      MappedSources(units[..|units| - 1]);
    }
  }

  lemma {:induction false} SourcesOfUnit(units: seq<Unit>)
    requires UnitIdsDistinct(units)
    ensures forall u :: u in units ==> u.id in SourcesOf(units) && SourcesOf(units)[u.id] == u.sources
    ensures forall x :: x in SourcesOf(units) <==> exists u :: u in units && u.id == x
  {
    if units != [] {
      var init, last := units[..|units| - 1], units[|units| - 1];
      SourcesOfUnit(init);
      assert units == init + [last];
      forall u | u in init ensures u.id != last.id {
        var i :| 0 <= i < |init| && init[i] == u;
        assert units[i].id != units[|units| - 1].id;
      }
      forall x ensures x in SourcesOf(units) <==> exists u :: u in units && u.id == x {
        if x in SourcesOf(init) {
          var u :| u in init && u.id == x;
          assert u in units;
        }
        assert last in units;
      }
    }
  }

  lemma SameIdSameUnit(units: seq<Unit>, u: Unit, v: Unit)
    requires UnitIdsDistinct(units) && u in units && v in units && u.id == v.id
    ensures u == v
  {
    var i :| 0 <= i < |units| && units[i] == u;
    var j :| 0 <= j < |units| && units[j] == v;
  }

  method MapUnits(units: seq<Unit>) returns (unitOf: map<Id, Id>)
    ensures unitOf == UnitMap(units)
  {
    unitOf := map[];
    for i := 0 to |units|
      invariant unitOf == UnitMap(units[..i])
    {
      assert units[..i + 1][..i] == units[..i];
      unitOf := unitOf + SourcesIn(units[i]);
    }
    assert units[..|units|] == units;
  }

  // --- nomination -----------------------------------------------------------------------------------

  datatype Nomination = Nomination(kind: LinkKind, edge: Affinity)

  predicate Endpoints(unitOf: map<Id, Id>, nom: Nomination) {
    nom.edge.left in unitOf && nom.edge.right in unitOf
  }

  predicate Crossing(unitOf: map<Id, Id>, nom: Nomination) {
    Endpoints(unitOf, nom) && unitOf[nom.edge.left] != unitOf[nom.edge.right]
  }

  function KeyOf(unitOf: map<Id, Id>, nom: Nomination): Name
    requires Endpoints(unitOf, nom)
  {
    var left, right := unitOf[nom.edge.left], unitOf[nom.edge.right];
    if left <= right then LinkName(nom.kind, left, right) else LinkName(nom.kind, right, left)
  }

  function LinkOf(unitOf: map<Id, Id>, hash: Name -> Id, nom: Nomination): Link
    requires Endpoints(unitOf, nom)
  {
    var key := KeyOf(unitOf, nom);
    Link(hash(key), key.kind, key.left, key.right, nom.edge)
  }

  /** Stronger, or as strong with the later pair of sources. */
  predicate Outranks(a: Affinity, b: Affinity) {
    var (aFirst, aLast) := if a.left <= a.right then (a.left, a.right) else (a.right, a.left);
    var (bFirst, bLast) := if b.left <= b.right then (b.left, b.right) else (b.right, b.left);
    a.similarity > b.similarity || (a.similarity == b.similarity && (aFirst > bFirst || (aFirst == bFirst && aLast > bLast)))
  }

  /** One link for every kind and pair of units that some nomination crosses, and no nomination outranks it. */
  ghost predicate StrongestLinks(unitOf: map<Id, Id>, hash: Name -> Id, noms: seq<Nomination>, links: map<Name, Link>) {
    && (forall key :: key in links ==> LinkFor(unitOf, hash, noms, key, links[key]))
    && (forall nom :: nom in noms && Crossing(unitOf, nom) ==>
          KeyOf(unitOf, nom) in links && !Outranks(nom.edge, links[KeyOf(unitOf, nom)].edge))
  }

  ghost predicate LinkFor(unitOf: map<Id, Id>, hash: Name -> Id, noms: seq<Nomination>, key: Name, link: Link) {
    exists nom :: nom in noms && Crossing(unitOf, nom) && KeyOf(unitOf, nom) == key && LinkOf(unitOf, hash, nom) == link
  }

  ghost predicate Listing(order: seq<Name>, links: map<Name, Link>) {
    Distinct(order) && forall key :: key in order <==> key in links
  }

  method Nominate(unitOf: map<Id, Id>, hash: Name -> Id, ghost noms: seq<Nomination>, nom: Nomination, links: map<Name, Link>, order: seq<Name>)
    returns (more: map<Name, Link>, listed: seq<Name>)
    requires StrongestLinks(unitOf, hash, noms, links) && Listing(order, links) && Endpoints(unitOf, nom)
    ensures StrongestLinks(unitOf, hash, noms + [nom], more) && Listing(listed, more)
  {
    more, listed := links, order;
    forall key | key in links ensures LinkFor(unitOf, hash, noms + [nom], key, links[key]) {
      var was :| was in noms && Crossing(unitOf, was) && KeyOf(unitOf, was) == key && LinkOf(unitOf, hash, was) == links[key];
      assert was in noms + [nom];
    }
    assert nom in noms + [nom];
    if unitOf[nom.edge.left] == unitOf[nom.edge.right] {
      return;
    }
    var key := KeyOf(unitOf, nom);
    var candidate := LinkOf(unitOf, hash, nom);
    if key !in links {
      DistinctMore(order, key);
      listed := order + [key];
      more := links[key := candidate];
    } else if Outranks(candidate.edge, links[key].edge) {
      more := links[key := candidate];
    }
  }

  function Nominations(kind: LinkKind, edges: seq<Affinity>): (r: seq<Nomination>)
    ensures |r| == |edges| && forall i :: 0 <= i < |edges| ==> r[i] == Nomination(kind, edges[i])
  {
    seq(|edges|, i requires 0 <= i < |edges| => Nomination(kind, edges[i]))
  }

  method NominateAll(unitOf: map<Id, Id>, hash: Name -> Id, ghost noms: seq<Nomination>, kind: LinkKind, edges: seq<Affinity>,
                     links: map<Name, Link>, order: seq<Name>)
    returns (more: map<Name, Link>, listed: seq<Name>)
    requires StrongestLinks(unitOf, hash, noms, links) && Listing(order, links)
    requires forall e :: e in edges ==> e.left in unitOf && e.right in unitOf
    ensures StrongestLinks(unitOf, hash, noms + Nominations(kind, edges), more) && Listing(listed, more)
  {
    more, listed := links, order;
    assert noms + Nominations(kind, edges[..0]) == noms;
    for i := 0 to |edges|
      invariant StrongestLinks(unitOf, hash, noms + Nominations(kind, edges[..i]), more) && Listing(listed, more)
    {
      assert edges[i] in edges;
      more, listed := Nominate(unitOf, hash, noms + Nominations(kind, edges[..i]), Nomination(kind, edges[i]), more, listed);
      assert noms + Nominations(kind, edges[..i + 1]) == noms + Nominations(kind, edges[..i]) + [Nomination(kind, edges[i])];
    }
    assert edges[..|edges|] == edges;
  }

  // --- the list of links ------------------------------------------------------------------------------

  function EdgesOf(bridges: seq<Neighborhoods.Bridge>): (r: seq<Affinity>)
    ensures |r| == |bridges| && forall i :: 0 <= i < |bridges| ==> r[i] == bridges[i].edge
  {
    seq(|bridges|, i requires 0 <= i < |bridges| => bridges[i].edge)
  }

  /** The strongest bridges, up to the bound. */
  function StrongestBridges(bridges: seq<Neighborhoods.Bridge>, max: int): seq<Neighborhoods.Bridge> {
    var sorted := SortBy(bridges, Neighborhoods.BridgeBefore);
    if max < 0 then [] else if max < |sorted| then sorted[..max] else sorted
  }

  function AllNominations(p: Neighborhoods.Proposal, maxLinks: int): seq<Nomination> {
    Nominations(NeighborhoodBoundary, p.tight) + Nominations(CrossNeighborhood, EdgesOf(StrongestBridges(p.bridges, maxLinks)))
  }

  predicate LinkBefore(a: Link, b: Link) {
    if a.kind != b.kind then a.kind.CrossNeighborhood?
    else if a.edge.similarity != b.edge.similarity then a.edge.similarity > b.edge.similarity
    else a.id < b.id
  }

  function Values(order: seq<Name>, links: map<Name, Link>): (r: seq<Link>)
    requires forall key :: key in order ==> key in links
    ensures |r| == |order| && forall i :: 0 <= i < |order| ==> r[i] == links[order[i]]
  {
    seq(|order|, i requires 0 <= i < |order| => assert order[i] in order; links[order[i]])
  }

  /** The links of a plan against all nominations. */
  ghost predicate LinksOf(unitOf: map<Id, Id>, hash: Name -> Id, noms: seq<Nomination>, links: seq<Link>) {
    && LinkIdsDistinct(links) && InOrder(links, LinkBefore)
    && exists best :: StrongestLinks(unitOf, hash, noms, best) && forall l :: l in links <==> exists key :: key in best && best[key] == l
  }

  predicate LinkIdsDistinct(links: seq<Link>) {
    forall i, j :: 0 <= i < j < |links| ==> links[i].id != links[j].id
  }

  lemma LinkIdOfKey(unitOf: map<Id, Id>, hash: Name -> Id, noms: seq<Nomination>, links: map<Name, Link>, key: Name)
    requires StrongestLinks(unitOf, hash, noms, links) && key in links
    ensures links[key].id == hash(key)
  {
    assert LinkFor(unitOf, hash, noms, key, links[key]);
  }

  lemma ListedLinks(unitOf: map<Id, Id>, hash: Name -> Id, noms: seq<Nomination>, best: map<Name, Link>, order: seq<Name>)
    requires StrongestLinks(unitOf, hash, noms, best) && Listing(order, best) && Injective(hash)
    ensures LinksOf(unitOf, hash, noms, SortBy(Values(order, best), LinkBefore))
  {
    var values := Values(order, best);
    var links := SortBy(values, LinkBefore);
    forall i, j | 0 <= i < j < |values| ensures values[i].id != values[j].id {
      assert order[i] in order && order[j] in order;
      LinkIdOfKey(unitOf, hash, noms, best, order[i]);
      LinkIdOfKey(unitOf, hash, noms, best, order[j]);
    }
    assert Distinct(values);
    assert StrictWeak(LinkBefore);
    SortDistinct(values, LinkBefore);
    SortKeeps(values, LinkBefore);
    forall i, j | 0 <= i < j < |links| ensures links[i].id != links[j].id {
      assert links[i] in values && links[j] in values && links[i] != links[j];
    }
    forall l ensures l in links <==> exists key :: key in best && best[key] == l {
      if l in values {
        var i :| 0 <= i < |values| && values[i] == l;
        assert order[i] in order;
      }
      if key :| key in best && best[key] == l {
        var i :| 0 <= i < |order| && order[i] == key;
        assert values[i] == l;
      }
    }
  }

  lemma StrongestAreBridges(bridges: seq<Neighborhoods.Bridge>, max: int)
    ensures forall b :: b in StrongestBridges(bridges, max) ==> b in bridges
  {
    SortKeeps(bridges, Neighborhoods.BridgeBefore);
  }

  method BuildLinks(unitOf: map<Id, Id>, hash: Name -> Id, p: Neighborhoods.Proposal, maxLinks: int) returns (links: seq<Link>)
    requires Injective(hash) && maxLinks >= 1
    requires forall e :: e in p.tight ==> e.left in unitOf && e.right in unitOf
    requires forall b :: b in p.bridges ==> b.edge.left in unitOf && b.edge.right in unitOf
    ensures LinksOf(unitOf, hash, AllNominations(p, maxLinks), links)
    ensures LinksTold(unitOf, AllNominations(p, maxLinks), links) && AnswersProposal(unitOf, p, links)
  {
    var best, order := NominateAll(unitOf, hash, [], NeighborhoodBoundary, p.tight, map[], []);
    var strongest := SortBy(p.bridges, Neighborhoods.BridgeBefore);
    if maxLinks < |strongest| {
      strongest := strongest[..maxLinks];
    }
    StrongestAreBridges(p.bridges, maxLinks);
    forall e | e in EdgesOf(strongest) ensures e.left in unitOf && e.right in unitOf {
      var i :| 0 <= i < |strongest| && EdgesOf(strongest)[i] == e;
      assert strongest[i] in strongest;
    }
    ghost var first := [] + Nominations(NeighborhoodBoundary, p.tight);
    assert first == Nominations(NeighborhoodBoundary, p.tight);
    best, order := NominateAll(unitOf, hash, first, CrossNeighborhood, EdgesOf(strongest), best, order);
    ListedLinks(unitOf, hash, AllNominations(p, maxLinks), best, order);
    links := SortBy(Values(order, best), LinkBefore);
    LinksAreTold(unitOf, hash, AllNominations(p, maxLinks), links);
    LinksAnswer(unitOf, p, maxLinks, links);
  }

  // --- what the links are, told from the units and the nominations --------------------------------------

  /** The two units the ends of an edge are in, the lesser first. */
  ghost predicate Between(unitOf: map<Id, Id>, edge: Affinity, left: Id, right: Id) {
    edge.left in unitOf && edge.right in unitOf && left < right && {unitOf[edge.left], unitOf[edge.right]} == {left, right}
  }

  ghost function FirstEnd(e: Affinity): Id {
    if e.left <= e.right then e.left else e.right
  }

  ghost function LastEnd(e: Affinity): Id {
    if e.left <= e.right then e.right else e.left
  }

  /** At least as similar, and of two as similar the one with the later pair of sources. */
  ghost predicate HoldsAgainst(a: Affinity, b: Affinity) {
    || a.similarity > b.similarity
    || (a.similarity == b.similarity && (FirstEnd(a) > FirstEnd(b) || (FirstEnd(a) == FirstEnd(b) && LastEnd(a) >= LastEnd(b))))
  }

  /** A link carries a nomination of its kind between its units, and holds against all others of them. */
  ghost predicate StrongestBetween(unitOf: map<Id, Id>, noms: seq<Nomination>, l: Link) {
    && Nomination(l.kind, l.edge) in noms && Between(unitOf, l.edge, l.leftUnit, l.rightUnit)
    && forall nom :: nom in noms && nom.kind == l.kind && Between(unitOf, nom.edge, l.leftUnit, l.rightUnit) ==> HoldsAgainst(l.edge, nom.edge)
  }

  /** Links across neighbourhoods first, then the more similar, then the lesser id. */
  ghost predicate LinksListed(links: seq<Link>) {
    forall i, j :: 0 <= i < j < |links| ==>
      || (links[i].kind == CrossNeighborhood && links[j].kind == NeighborhoodBoundary)
      || (links[i].kind == links[j].kind &&
          (links[i].edge.similarity > links[j].edge.similarity ||
           (links[i].edge.similarity == links[j].edge.similarity && links[i].id < links[j].id)))
  }

  /** One link for every kind and two units that nominations join, the strongest of them, in order. */
  ghost predicate LinksTold(unitOf: map<Id, Id>, noms: seq<Nomination>, links: seq<Link>) {
    && LinksListed(links) && (forall l :: l in links ==> StrongestBetween(unitOf, noms, l))
    && (forall nom, left, right :: nom in noms && Between(unitOf, nom.edge, left, right) ==>
          exists l :: l in links && l.kind == nom.kind && l.leftUnit == left && l.rightUnit == right)
    && (forall l, k :: l in links && k in links && l.kind == k.kind && l.leftUnit == k.leftUnit && l.rightUnit == k.rightUnit ==> l == k)
  }

  lemma KeyIsBetween(unitOf: map<Id, Id>, nom: Nomination, left: Id, right: Id)
    requires Endpoints(unitOf, nom)
    ensures Between(unitOf, nom.edge, left, right) <==> Crossing(unitOf, nom) && KeyOf(unitOf, nom) == LinkName(nom.kind, left, right)
  {
    var a, b := unitOf[nom.edge.left], unitOf[nom.edge.right];
    assert a in {a, b} && b in {a, b} && left in {left, right} && right in {left, right};
  }

  lemma OutrankedOrHolds(a: Affinity, b: Affinity)
    ensures HoldsAgainst(a, b) <==> !Outranks(b, a)
  {
  }

  lemma BestIsStrongest(unitOf: map<Id, Id>, hash: Name -> Id, noms: seq<Nomination>, best: map<Name, Link>, key: Name)
    requires StrongestLinks(unitOf, hash, noms, best) && key in best
    ensures StrongestBetween(unitOf, noms, best[key]) && key == LinkName(best[key].kind, best[key].leftUnit, best[key].rightUnit)
  {
    var l := best[key];
    assert LinkFor(unitOf, hash, noms, key, l);
    var nom :| nom in noms && Crossing(unitOf, nom) && KeyOf(unitOf, nom) == key && LinkOf(unitOf, hash, nom) == l;
    KeyIsBetween(unitOf, nom, l.leftUnit, l.rightUnit);
    forall other | other in noms && other.kind == l.kind && Between(unitOf, other.edge, l.leftUnit, l.rightUnit)
      ensures HoldsAgainst(l.edge, other.edge)
    {
      KeyIsBetween(unitOf, other, l.leftUnit, l.rightUnit);
      OutrankedOrHolds(l.edge, other.edge);
    }
  }

  lemma LinksAreTold(unitOf: map<Id, Id>, hash: Name -> Id, noms: seq<Nomination>, links: seq<Link>)
    requires LinksOf(unitOf, hash, noms, links)
    ensures LinksTold(unitOf, noms, links)
  {
    var best :| StrongestLinks(unitOf, hash, noms, best) && forall l :: l in links <==> exists key :: key in best && best[key] == l;
    forall l | l in links
      ensures StrongestBetween(unitOf, noms, l) && LinkName(l.kind, l.leftUnit, l.rightUnit) in best && best[LinkName(l.kind, l.leftUnit, l.rightUnit)] == l
    {
      var key :| key in best && best[key] == l;
      BestIsStrongest(unitOf, hash, noms, best, key);
    }
    forall nom, left, right | nom in noms && Between(unitOf, nom.edge, left, right)
      ensures exists l :: l in links && l.kind == nom.kind && l.leftUnit == left && l.rightUnit == right
    {
      KeyIsBetween(unitOf, nom, left, right);
      BestIsStrongest(unitOf, hash, noms, best, LinkName(nom.kind, left, right));
      assert best[LinkName(nom.kind, left, right)] in links;
    }
    InOrderIsListed(links);
  }

  lemma InOrderIsListed(links: seq<Link>)
    requires InOrder(links, LinkBefore) && LinkIdsDistinct(links)
    ensures LinksListed(links)
  {
    forall i, j | 0 <= i < j < |links| ensures !LinkBefore(links[j], links[i]) && links[i].id != links[j].id {
    }
  }

  /** The bridges nominated: as many as the bound allows, and none left out comes before one that is in. */
  lemma StrongestBridgesAre(bridges: seq<Neighborhoods.Bridge>, max: int)
    requires max >= 0
    ensures var kept := StrongestBridges(bridges, max);
      && |kept| == (if max < |bridges| then max else |bridges|) && Neighborhoods.BridgesListed(kept)
      && (forall b, c :: b in kept && c in bridges && c !in kept ==> Neighborhoods.BridgesListed([b, c]))
  {
    var sorted := SortBy(bridges, Neighborhoods.BridgeBefore);
    assert StrictWeak(Neighborhoods.BridgeBefore);
    SortInOrder(bridges, Neighborhoods.BridgeBefore);
    SortKeeps(bridges, Neighborhoods.BridgeBefore);
    Neighborhoods.InOrderIsListed(sorted);
    var kept := StrongestBridges(bridges, max);
    assert kept <= sorted;
    forall b, c | b in kept && c in bridges && c !in kept ensures Neighborhoods.BridgesListed([b, c]) {
      KeptBeforeDropped(sorted, kept, b, c);
    }
  }

  lemma KeptBeforeDropped(sorted: seq<Neighborhoods.Bridge>, kept: seq<Neighborhoods.Bridge>, b: Neighborhoods.Bridge, c: Neighborhoods.Bridge)
    requires Neighborhoods.BridgesListed(sorted) && kept <= sorted && b in kept && c in sorted && c !in kept
    ensures Neighborhoods.BridgesListed([b, c])
  {
    var i :| 0 <= i < |kept| && kept[i] == b;
    var j :| 0 <= j < |sorted| && sorted[j] == c;
    assert sorted[i] == b && j >= |kept|;
  }

  /** Every affinity between two units has a boundary link that holds against it, and links come from affinities and bridges only. */
  ghost predicate AnswersProposal(unitOf: map<Id, Id>, p: Neighborhoods.Proposal, links: seq<Link>) {
    && (forall e, left, right :: e in p.tight && Between(unitOf, e, left, right) ==>
          exists l :: l in links && l.kind == NeighborhoodBoundary && l.leftUnit == left && l.rightUnit == right && HoldsAgainst(l.edge, e))
    && (forall l :: l in links && l.kind == NeighborhoodBoundary ==> l.edge in p.tight)
    && (forall l :: l in links && l.kind == CrossNeighborhood ==> exists b :: b in p.bridges && b.edge == l.edge)
  }

  lemma NominatedFrom(p: Neighborhoods.Proposal, maxLinks: int, nom: Nomination)
    ensures nom in AllNominations(p, maxLinks) <==>
      if nom.kind == NeighborhoodBoundary then nom.edge in p.tight
      else exists b :: b in StrongestBridges(p.bridges, maxLinks) && b.edge == nom.edge
  {
    var boundary, strongest := Nominations(NeighborhoodBoundary, p.tight), StrongestBridges(p.bridges, maxLinks);
    var across := Nominations(CrossNeighborhood, EdgesOf(strongest));
    if nom.kind == NeighborhoodBoundary && nom.edge in p.tight {
      var i :| 0 <= i < |p.tight| && p.tight[i] == nom.edge;
      assert boundary[i] == nom;
    }
    if b :| nom.kind == CrossNeighborhood && b in strongest && b.edge == nom.edge {
      var i :| 0 <= i < |strongest| && strongest[i] == b;
      assert across[i] == nom;
    }
    if nom in across {
      var i :| 0 <= i < |across| && across[i] == nom;
      assert strongest[i] in strongest;
    }
  }

  lemma LinksAnswer(unitOf: map<Id, Id>, p: Neighborhoods.Proposal, maxLinks: int, links: seq<Link>)
    requires LinksTold(unitOf, AllNominations(p, maxLinks), links)
    ensures AnswersProposal(unitOf, p, links)
  {
    StrongestAreBridges(p.bridges, maxLinks);
    forall l | l in links
      ensures if l.kind == NeighborhoodBoundary then l.edge in p.tight else exists b :: b in p.bridges && b.edge == l.edge
    {
      NominatedFrom(p, maxLinks, Nomination(l.kind, l.edge));
    }
    forall e, left, right | e in p.tight && Between(unitOf, e, left, right)
      ensures exists l :: l in links && l.kind == NeighborhoodBoundary && l.leftUnit == left && l.rightUnit == right && HoldsAgainst(l.edge, e)
    {
      NominatedFrom(p, maxLinks, Nomination(NeighborhoodBoundary, e));
      var l :| l in links && l.kind == NeighborhoodBoundary && l.leftUnit == left && l.rightUnit == right;
      assert StrongestBetween(unitOf, AllNominations(p, maxLinks), l);
    }
  }

  // --- the validator's rules -------------------------------------------------------------------------------

  predicate EndpointsAgree(sourcesOf: map<Id, seq<Id>>, l: Link) {
    && l.leftUnit in sourcesOf && l.rightUnit in sourcesOf && l.leftUnit != l.rightUnit
    && (|| (l.edge.left in sourcesOf[l.leftUnit] && l.edge.right in sourcesOf[l.rightUnit])
        || (l.edge.right in sourcesOf[l.leftUnit] && l.edge.left in sourcesOf[l.rightUnit]))
  }

  predicate ValidLinks(units: seq<Unit>, links: seq<Link>) {
    LinkIdsDistinct(links) && forall l :: l in links ==> EndpointsAgree(SourcesOf(units), l)
  }

  datatype LinkError = DuplicateLink | BadUnits | SourcesDisagree

  method ValidateLinks(ids: set<Id>, sourcesOf: map<Id, seq<Id>>, ghost units: seq<Unit>, links: seq<Link>) returns (r: Option<LinkError>)
    requires sourcesOf == SourcesOf(units) && forall x :: x in ids <==> x in sourcesOf
    ensures r.None? <==> ValidLinks(units, links)
  {
    var seen: set<Id> := {};
    for i := 0 to |links|
      invariant ValidLinks(units, links[..i])
      invariant forall x :: x in seen <==> exists k :: 0 <= k < i && links[k].id == x
    {
      var l := links[i];
      assert l in links;
      if l.id in seen {
        return Some(DuplicateLink);
      }
      if l.leftUnit !in ids || l.rightUnit !in ids || l.leftUnit == l.rightUnit {
        return Some(BadUnits);
      }
      if !((l.edge.left in sourcesOf[l.leftUnit] && l.edge.right in sourcesOf[l.rightUnit])
           || (l.edge.right in sourcesOf[l.leftUnit] && l.edge.left in sourcesOf[l.rightUnit])) {
        return Some(SourcesDisagree);
      }
      seen := seen + {l.id};
      assert links[..i + 1] == links[..i] + [l];
    }
    assert links[..|links|] == links;
    return None;
  }

  lemma LinkEndpoints(units: seq<Unit>, hash: Name -> Id, noms: seq<Nomination>, key: Name, l: Link)
    requires Apart(units) && UnitIdsDistinct(units)
    requires LinkFor(UnitMap(units), hash, noms, key, l)
    ensures EndpointsAgree(SourcesOf(units), l)
  {
    var nom :| nom in noms && Crossing(UnitMap(units), nom) && KeyOf(UnitMap(units), nom) == key && LinkOf(UnitMap(units), hash, nom) == l;
    SourcesOfUnit(units);
    var u := UnitHolding(units, nom.edge.left);
    var v := UnitHolding(units, nom.edge.right);
  }

  lemma UnitHolding(units: seq<Unit>, s: Id) returns (u: Unit)
    requires Apart(units) && s in UnitMap(units)
    ensures u in units && s in u.sources && UnitMap(units)[s] == u.id
  {
    MappedSources(units);
    assert s in Elements(AllSources(units));
    SourcesAreSources(units, s);
    u :| u in units && s in u.sources;
    var g :| 0 <= g < |units| && units[g] == u;
    UnitOfSource(units, g, s);
  }

  /** Nominated links always pass the validator. */
  lemma LinksAreValid(units: seq<Unit>, hash: Name -> Id, noms: seq<Nomination>, links: seq<Link>)
    requires Apart(units) && UnitIdsDistinct(units) && LinksOf(UnitMap(units), hash, noms, links)
    ensures ValidLinks(units, links)
  {
    var best :| StrongestLinks(UnitMap(units), hash, noms, best) && forall l :: l in links <==> exists key :: key in best && best[key] == l;
    forall l | l in links ensures EndpointsAgree(SourcesOf(units), l) {
      var key :| key in best && best[key] == l;
      LinkEndpoints(units, hash, noms, key, l);
    }
  }

  /** Every nomination between two units is answered by a link of its kind that it does not outrank. */
  lemma LinkOfNomination(unitOf: map<Id, Id>, hash: Name -> Id, noms: seq<Nomination>, links: seq<Link>, nom: Nomination) returns (l: Link)
    requires LinksOf(unitOf, hash, noms, links) && nom in noms && Crossing(unitOf, nom)
    ensures l in links && l.kind == nom.kind && !Outranks(nom.edge, l.edge)
    ensures {l.leftUnit, l.rightUnit} == {unitOf[nom.edge.left], unitOf[nom.edge.right]}
  {
    var best :| StrongestLinks(unitOf, hash, noms, best) && forall m :: m in links <==> exists key :: key in best && best[key] == m;
    l := best[KeyOf(unitOf, nom)];
    assert LinkFor(unitOf, hash, noms, KeyOf(unitOf, nom), l);
    LinkSharesKey(unitOf, hash, noms, nom, l);
  }

  lemma LinkSharesKey(unitOf: map<Id, Id>, hash: Name -> Id, noms: seq<Nomination>, nom: Nomination, l: Link)
    requires Endpoints(unitOf, nom) && LinkFor(unitOf, hash, noms, KeyOf(unitOf, nom), l)
    ensures l.kind == nom.kind && {l.leftUnit, l.rightUnit} == {unitOf[nom.edge.left], unitOf[nom.edge.right]}
  {
  }
}
