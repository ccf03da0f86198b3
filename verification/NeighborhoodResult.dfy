/**
 The binding and coverage rules a neighbourhood synthesis result must pass, and the
 normalisation that decides which populations it leaves unbound.
 */
module NeighborhoodResult {
  import opened Wrappers
  import opened Ordering
  import opened BindingBudget

  datatype CoverageError =
    | TooManyBindings | TooManyEdges | InvalidEdge | DuplicateEdge | InvalidBinding | DuplicateBinding | NodeWithoutBinding
    | UnboundOutsideUnit | UnboundRepeated | BoundAndUnbound | PopulationUnaccounted

  function Populations(bs: seq<Binding>): set<Id> {
    set b | b in bs :: b.population
  }

  function Nodes(bs: seq<Binding>): set<Id> {
    set b | b in bs :: b.node
  }

  /** Every population of the unit is bound or listed as unbound, and not both. */
  ghost predicate Accounted(work: Work, bs: seq<Binding>, unbound: seq<Id>) {
    && Distinct(unbound)
    && Populations(bs) !! Elements(unbound)
    && Populations(bs) + Elements(unbound) == work.populations
  }

  ghost predicate BoundedBindings(work: Work, nodes: set<Id>, bs: seq<Binding>) {
    && |bs| <= work.maxBindings
    && (forall i :: 0 <= i < |bs| ==> WellFormed(work, nodes, bs[i]))
    && DistinctKeys(bs)
    && Nodes(bs) == nodes
  }

  datatype Edge = Edge(subject: Id, relation: Id, target: Id, confidence: real, evidence: seq<Id>)

  ghost predicate WellFormedEdge(work: Work, nodes: set<Id>, e: Edge) {
    && e.subject in nodes && e.target in nodes && e.subject != e.target
    && 0.0 <= e.confidence <= 1.0
    && e.evidence != [] && Distinct(e.evidence) && forall w :: w in e.evidence ==> w in work.evidence
  }

  function EdgeKey(e: Edge): (Id, Id, Id) {
    (e.subject, e.relation, e.target)
  }

  /** Edges between different nodes of the result, within the budget, no two alike. */
  ghost predicate BoundedEdges(work: Work, nodes: set<Id>, maxEdges: int, es: seq<Edge>) {
    && |es| <= maxEdges
    && (forall i :: 0 <= i < |es| ==> WellFormedEdge(work, nodes, es[i]))
    && (forall i, j :: 0 <= i < j < |es| ==> EdgeKey(es[i]) != EdgeKey(es[j]))
  }

  method ValidateBindings(work: Work, nodes: set<Id>, bs: seq<Binding>) returns (r: Option<CoverageError>, boundPopulations: set<Id>)
    requires |bs| <= work.maxBindings
    ensures r.None? <==> BoundedBindings(work, nodes, bs)
    ensures r.None? ==> boundPopulations == Populations(bs)
  {
    var boundNodes: set<Id>, keys: set<(Id, Id, Role)> := {}, {};
    boundPopulations := {};
    for i := 0 to |bs|
      invariant forall j :: 0 <= j < i ==> WellFormed(work, nodes, bs[j])
      invariant DistinctKeys(bs[..i])
      invariant forall k :: k in keys <==> exists j :: 0 <= j < i && Key(bs[j]) == k
      invariant boundPopulations == Populations(bs[..i]) && boundNodes == Nodes(bs[..i])
    {
      var ok := CheckBinding(work, nodes, bs[i]);
      if !ok {
        return Some(InvalidBinding), boundPopulations;
      }
      if Key(bs[i]) in keys {
        return Some(DuplicateBinding), boundPopulations;
      }
      keys := keys + {Key(bs[i])};
      boundNodes := boundNodes + {bs[i].node};
      boundPopulations := boundPopulations + {bs[i].population};
      assert bs[..i + 1] == bs[..i] + [bs[i]];
    }
    assert bs[..|bs|] == bs;
    if nodes != boundNodes {
      return Some(NodeWithoutBinding), boundPopulations;
    }
    r := None;
  }

  /** The checks of one edge, made one after the other. */
  method CheckEdge(work: Work, nodes: set<Id>, e: Edge) returns (ok: bool)
    ensures ok <==> WellFormedEdge(work, nodes, e)
  {
    if e.subject !in nodes || e.target !in nodes || e.subject == e.target {
      return false;
    }
    if e.confidence < 0.0 || e.confidence > 1.0 || e.evidence == [] || !Distinct(e.evidence) {
      return false;
    }
    for k := 0 to |e.evidence|
      invariant forall w :: w in e.evidence[..k] ==> w in work.evidence
    {
      var item := e.evidence[k];
      assert item in e.evidence && e.evidence[..k + 1] == e.evidence[..k] + [item];
      if item !in work.evidence {
        return false;
      }
    }
    assert e.evidence[..|e.evidence|] == e.evidence;
    return true;
  }

  method ValidateEdges(work: Work, nodes: set<Id>, maxEdges: int, es: seq<Edge>) returns (r: Option<CoverageError>)
    requires |es| <= maxEdges
    ensures r.None? <==> BoundedEdges(work, nodes, maxEdges, es)
  {
    var keys: set<(Id, Id, Id)> := {};
    for i := 0 to |es|
      invariant forall j :: 0 <= j < i ==> WellFormedEdge(work, nodes, es[j])
      invariant forall j, k :: 0 <= j < k < i ==> EdgeKey(es[j]) != EdgeKey(es[k])
      invariant forall k :: k in keys <==> exists j :: 0 <= j < i && EdgeKey(es[j]) == k
    {
      var ok := CheckEdge(work, nodes, es[i]);
      if !ok {
        return Some(InvalidEdge);
      }
      if EdgeKey(es[i]) in keys {
        return Some(DuplicateEdge);
      }
      keys := keys + {EdgeKey(es[i])};
    }
    return None;
  }

  method ValidateCoverage(work: Work, nodes: set<Id>, maxEdges: int, bs: seq<Binding>, es: seq<Edge>, unbound: seq<Id>)
    returns (r: Option<CoverageError>)
    ensures r.None? <==> BoundedBindings(work, nodes, bs) && BoundedEdges(work, nodes, maxEdges, es) && Accounted(work, bs, unbound)
  {
    if |bs| > work.maxBindings {
      return Some(TooManyBindings);
    }
    if |es| > maxEdges {
      return Some(TooManyEdges);
    }
    var boundPopulations;
    r, boundPopulations := ValidateBindings(work, nodes, bs);
    if r.Some? {
      return;
    }
    r := ValidateEdges(work, nodes, maxEdges, es);
    if r.Some? {
      return;
    }
    if exists u :: u in unbound && u !in work.populations {
      return Some(UnboundOutsideUnit);
    }
    if !Distinct(unbound) {
      return Some(UnboundRepeated);
    }
    if !(boundPopulations !! Elements(unbound)) {
      return Some(BoundAndUnbound);
    }
    if boundPopulations + Elements(unbound) != work.populations {
      return Some(PopulationUnaccounted);
    }
    return None;
  }

  /** The unbound list is rebuilt from the unit, keeping none of the model's own choices. */
  function NormalizedUnbound(work: Work, bs: seq<Binding>, supplied: seq<Id>): (unbound: seq<Id>)
    ensures Elements(unbound) == work.populations - Populations(bs) && Distinct(unbound)
  {
    var bound := set b | b in bs && b.population in work.populations :: b.population;
    SortedSet((set s | s in supplied && s in work.populations) + work.populations - bound)
  }

  /** The rebuilt list settles coverage exactly when no binding names a population outside the unit. */
  lemma NormalizationSettlesCoverage(work: Work, bs: seq<Binding>, supplied: seq<Id>)
    ensures Accounted(work, bs, NormalizedUnbound(work, bs, supplied)) <==> Populations(bs) <= work.populations
  {
    var unbound := NormalizedUnbound(work, bs, supplied);
    if Populations(bs) <= work.populations {
      RestIsAccounted(work, bs, unbound);
    }
    if Accounted(work, bs, unbound) {
      forall p | p in Populations(bs) ensures p in work.populations {
        assert p in Populations(bs) + Elements(unbound);
      }
    }
  }

  lemma BoundIsScoped(work: Work, nodes: set<Id>, bs: seq<Binding>)
    requires BoundedBindings(work, nodes, bs)
    ensures Populations(bs) <= work.populations
  {
    forall p | p in Populations(bs) ensures p in work.populations {
      var i :| 0 <= i < |bs| && bs[i].population == p;
      assert WellFormed(work, nodes, bs[i]);
    }
  }

  lemma RestIsAccounted(work: Work, bs: seq<Binding>, unbound: seq<Id>)
    requires Populations(bs) <= work.populations && Distinct(unbound) && Elements(unbound) == work.populations - Populations(bs)
    ensures Accounted(work, bs, unbound)
  {
    forall p ensures p in Populations(bs) + Elements(unbound) <==> p in work.populations {}
  }

  lemma {:induction false} ProjectKeepsKeys(bs: seq<Binding>, kept: set<nat>, n: nat)
    requires n <= |bs| && DistinctKeys(bs)
    ensures DistinctKeys(Project(bs, kept, n))
  {
    if n > 0 {
      ProjectKeepsKeys(bs, kept, n - 1);
      var r := Project(bs, kept, n - 1);
      forall i | 0 <= i < |r| ensures Key(r[i]) != Key(bs[n - 1]) {
        assert r[i] in r;
      }
    }
  }

  /** An overflow the projection repairs is accepted once the unbound list is normalised. */
  lemma RepairIsAccepted(work: Work, payload: Payload, bs: seq<Binding>, kept: set<nat>, supplied: seq<Id>)
    requires Applies(work, payload, bs)
    requires Optimal(bs, Elements(NodeKeys(payload.nodes.value)), work.maxBindings, kept)
    ensures var nodes, fitted := Elements(NodeKeys(payload.nodes.value)), Project(bs, kept, |bs|);
            BoundedBindings(work, nodes, fitted) && Accounted(work, fitted, NormalizedUnbound(work, fitted, supplied))
  {
    var nodes, fitted := Elements(NodeKeys(payload.nodes.value)), Project(bs, kept, |bs|);
    ProjectionShape(bs, nodes, work.maxBindings, kept);
    ProjectKeepsKeys(bs, kept, |bs|);
    forall i | 0 <= i < |fitted| ensures WellFormed(work, nodes, fitted[i]) {
      assert fitted[i] in fitted;
    }
    forall n ensures n in Nodes(fitted) <==> n in nodes {
      if n in nodes {
        assert CoversNode(fitted, n, Indices(fitted));
      }
    }
    BoundIsScoped(work, nodes, fitted);
    NormalizationSettlesCoverage(work, fitted, supplied);
  }
}
