/**
 The bounded review queue of cross-source pairs: stratum quotas first, then redistribution
 of what the quotas left unused, always under one fanout bound per population.
 */
module CandidateQueue {
  import opened Ordering
  import opened Numbers

  datatype Stratum = LocalOverlap | SemanticNeighbor | UsageEvidence | HardNegativeProbe | DiversityProbe

  /** A candidate pair with its review priority; `pair` is its stable pair id. */
  datatype Candidate = Candidate(pair: Id, left: Id, right: Id, stratum: Stratum, priority: real)

  /** Alphabetical position of the stratum's name. */
  function NameOrder(s: Stratum): int {
    match s
    case DiversityProbe => 0
    case HardNegativeProbe => 1
    case LocalOverlap => 2
    case SemanticNeighbor => 3
    case UsageEvidence => 4
  }

  predicate CandidateBefore(x: Candidate, y: Candidate) {
    if x.priority != y.priority then x.priority > y.priority
    else if x.stratum != y.stratum then NameOrder(x.stratum) < NameOrder(y.stratum)
    else x.pair < y.pair
  }

  /** What the pool of scored pairs guarantees: cross-source pairs, each listed once. */
  ghost predicate Pool(candidates: seq<Candidate>) {
    && (forall c :: c in candidates ==> c.left != c.right)
    && (forall i, j :: 0 <= i < j < |candidates| ==> candidates[i].pair != candidates[j].pair)
  }

  // --- quotas ------------------------------------------------------------------------------------

  function QuotaWeight(s: Stratum): real {
    match s
    case LocalOverlap => 0.30
    case SemanticNeighbor => 0.30
    case UsageEvidence => 0.15
    case HardNegativeProbe => 0.20
    case DiversityProbe => 0.05
  }

  function Target(maxPairs: int, s: Stratum): int {
    var rounded := Round(maxPairs as real * QuotaWeight(s));
    if rounded > 1 then rounded else 1
  }

  const QUOTA_ORDER: seq<Stratum> := [LocalOverlap, SemanticNeighbor, UsageEvidence, HardNegativeProbe, DiversityProbe]

  // --- degrees --------------------------------------------------------------------------------------

  function Touches(c: Candidate, v: Id): nat {
    (if c.left == v then 1 else 0) + (if c.right == v then 1 else 0)
  }

  function Degree(selected: seq<Candidate>, v: Id): nat {
    if selected == [] then 0 else Degree(selected[..|selected| - 1], v) + Touches(selected[|selected| - 1], v)
  }

  function Count(selected: seq<Candidate>, s: Stratum): nat {
    if selected == [] then 0
    else Count(selected[..|selected| - 1], s) + (if selected[|selected| - 1].stratum == s then 1 else 0)
  }

  lemma DegreeMore(selected: seq<Candidate>, c: Candidate, v: Id)
    ensures Degree(selected + [c], v) == Degree(selected, v) + Touches(c, v)
  {
    assert (selected + [c])[..|selected|] == selected;
  }

  lemma CountMore(selected: seq<Candidate>, c: Candidate, s: Stratum)
    ensures Count(selected + [c], s) == Count(selected, s) + (if c.stratum == s then 1 else 0)
  {
    assert (selected + [c])[..|selected|] == selected;
  }

  /** An endpoint that has reached the fanout bound. */
  ghost predicate Saturated(selected: seq<Candidate>, maxFanout: int, c: Candidate) {
    Degree(selected, c.left) >= maxFanout || Degree(selected, c.right) >= maxFanout
  }

  ghost predicate Bounded(selected: seq<Candidate>, maxFanout: int) {
    forall v :: Degree(selected, v) <= maxFanout || Degree(selected, v) == 0
  }

  function FanoutOf(fanout: map<Id, nat>, v: Id): nat {
    if v in fanout then fanout[v] else 0
  }

  /** The dictionary counts how often each population is selected. */
  ghost predicate Counts(fanout: map<Id, nat>, selected: seq<Candidate>) {
    forall v :: FanoutOf(fanout, v) == Degree(selected, v)
  }

  function PairsOf(selected: seq<Candidate>): set<Id> {
    set c | c in selected :: c.pair
  }

  lemma IdsOneMore(selected: seq<Candidate>, c: Candidate)
    ensures PairsOf(selected + [c]) == PairsOf(selected) + {c.pair}
  {
    assert c in selected + [c];
    forall x ensures x in PairsOf(selected + [c]) <==> x in PairsOf(selected) + {c.pair} {
      if x in PairsOf(selected) {
        var d :| d in selected && d.pair == x;
        assert d in selected + [c];
      }
    }
  }

  lemma CountOneMore(selected: seq<Candidate>, fanout: map<Id, nat>, maxFanout: int, c: Candidate)
    requires Counts(fanout, selected) && Bounded(selected, maxFanout) && c.left != c.right
    requires FanoutOf(fanout, c.left) < maxFanout && FanoutOf(fanout, c.right) < maxFanout
    ensures var one := fanout[c.left := FanoutOf(fanout, c.left) + 1];
            Counts(one[c.right := FanoutOf(one, c.right) + 1], selected + [c])
    ensures Bounded(selected + [c], maxFanout)
  {
    forall v ensures Degree(selected + [c], v) == FanoutOf(fanout, v) + Touches(c, v) {
      DegreeMore(selected, c, v);
      assert FanoutOf(fanout, v) == Degree(selected, v);
    }
  }

  // --- the selection state ---------------------------------------------------------------------------

  class Selection {
    var fanout: map<Id, nat>
    var selected: seq<Candidate>
    var selectedIds: set<Id>
    const maxFanout: int

    ghost predicate Valid()
      reads this
    {
      && Counts(fanout, selected)
      && selectedIds == PairsOf(selected)
      && Bounded(selected, maxFanout)
    }

    constructor (maxFanout: int)
      ensures Valid() && selected == [] && this.maxFanout == maxFanout
    {
      this.maxFanout := maxFanout;
      fanout := map[];
      selected := [];
      selectedIds := {};
    }

    function Fanout(v: Id): nat
      reads this
    {
      FanoutOf(fanout, v)
    }

    /** Takes the candidate unless an endpoint is saturated; nothing else ever changes the selection. */
    method Select(c: Candidate) returns (taken: bool)
      requires Valid() && c.left != c.right
      modifies this
      ensures Valid()
      ensures taken <==> !Saturated(old(selected), maxFanout, c)
      ensures selected == if taken then old(selected) + [c] else old(selected)
    {
      if Fanout(c.left) >= maxFanout || Fanout(c.right) >= maxFanout {
        return false;
      }
      CountOneMore(selected, fanout, maxFanout, c);
      IdsOneMore(selected, c);
      selected := selected + [c];
      selectedIds := selectedIds + {c.pair};
      fanout := fanout[c.left := Fanout(c.left) + 1];
      fanout := fanout[c.right := Fanout(c.right) + 1];
      return true;
    }
  }

  // --- what the selection keeps at every moment -------------------------------------------------------

  /** Within one stratum a candidate is only passed over for a lower-ranked one when it is saturated. */
  ghost predicate Fair(candidates: seq<Candidate>, selected: seq<Candidate>, maxFanout: int) {
    forall i: nat, j: nat ::
      (i < j < |candidates| && candidates[i].stratum == candidates[j].stratum && candidates[i] !in selected && candidates[j] in selected)
      ==> Saturated(selected, maxFanout, candidates[i])
  }

  ghost predicate Chosen(candidates: seq<Candidate>, selected: seq<Candidate>) {
    Distinct(selected) && forall c :: c in selected ==> c in candidates
  }

  lemma SaturatedStays(selected: seq<Candidate>, c: Candidate, maxFanout: int, d: Candidate)
    requires Saturated(selected, maxFanout, d)
    ensures Saturated(selected + [c], maxFanout, d)
  {
    DegreeMore(selected, c, d.left);
    DegreeMore(selected, c, d.right);
  }

  /** Every candidate of the stratum among the first `n` is selected or saturated. */
  ghost predicate Tried(candidates: seq<Candidate>, selected: seq<Candidate>, maxFanout: int, s: Stratum, n: nat) {
    forall i: nat :: i < n && i < |candidates| && candidates[i].stratum == s && candidates[i] !in selected ==>
      Saturated(selected, maxFanout, candidates[i])
  }

  /** The queue's invariant: chosen from the pool without repetition and fair to every stratum. */
  ghost predicate Sound(candidates: seq<Candidate>, selected: seq<Candidate>, maxFanout: int) {
    Chosen(candidates, selected) && Fair(candidates, selected, maxFanout)
  }

  /** Taking the next candidate of a stratum tried so far keeps the queue sound. */
  lemma TakeKeepsSound(candidates: seq<Candidate>, selected: seq<Candidate>, maxFanout: int, n: nat)
    requires Pool(candidates) && Sound(candidates, selected, maxFanout) && n < |candidates| && candidates[n] !in selected
    requires Tried(candidates, selected, maxFanout, candidates[n].stratum, n)
    ensures Sound(candidates, selected + [candidates[n]], maxFanout)
    ensures forall s, k: nat :: Tried(candidates, selected, maxFanout, s, k) ==> Tried(candidates, selected + [candidates[n]], maxFanout, s, k)
  {
    var c := candidates[n];
    DistinctMore(selected, c);
    forall d | Saturated(selected, maxFanout, d) ensures Saturated(selected + [c], maxFanout, d) {
      SaturatedStays(selected, c, maxFanout, d);
    }
    forall i: nat, j: nat | i < j < |candidates| && candidates[i].stratum == candidates[j].stratum &&
        candidates[i] !in selected + [c] && candidates[j] in selected + [c]
      ensures Saturated(selected + [c], maxFanout, candidates[i])
    {
      if candidates[j] == c {
        assert j == n;
      }
    }
  }

  // --- who goes first, told from the fields alone ------------------------------------------------------

  const ALPHABETICAL: seq<Stratum> := [DiversityProbe, HardNegativeProbe, LocalOverlap, SemanticNeighbor, UsageEvidence]

  /** Higher priority; among equals the stratum first by name, then the lesser pair id. */
  ghost predicate Outranks(c: Candidate, d: Candidate) {
    || c.priority > d.priority
    || (c.priority == d.priority && exists i, j :: 0 <= i < j < |ALPHABETICAL| && ALPHABETICAL[i] == c.stratum && ALPHABETICAL[j] == d.stratum)
    || (c.priority == d.priority && c.stratum == d.stratum && c.pair < d.pair)
  }

  lemma RankIsOutranking(c: Candidate, d: Candidate)
    ensures CandidateBefore(c, d) <==> Outranks(c, d)
  {
    assert ALPHABETICAL[NameOrder(c.stratum)] == c.stratum && ALPHABETICAL[NameOrder(d.stratum)] == d.stratum;
    forall i | 0 <= i < |ALPHABETICAL| ensures NameOrder(ALPHABETICAL[i]) == i {
    }
  }

  /** Within a stratum a pair is passed over for one it outranks only when it is saturated. */
  ghost predicate BestOfStratum(pool: seq<Candidate>, selected: seq<Candidate>, maxFanout: int) {
    forall c, d :: c in pool && d in selected && c.stratum == d.stratum && Outranks(c, d) && c !in selected ==> Saturated(selected, maxFanout, c)
  }

  lemma FairIsRanked(pool: seq<Candidate>, selected: seq<Candidate>, maxFanout: int)
    requires Pool(pool) && Sound(SortBy(pool, CandidateBefore), selected, maxFanout)
    ensures BestOfStratum(pool, selected, maxFanout)
  {
    var sorted := SortBy(pool, CandidateBefore);
    SortedPool(pool);
    forall c, d | c in pool && d in selected && c.stratum == d.stratum && Outranks(c, d) && c !in selected ensures Saturated(selected, maxFanout, c) {
      var i, j := PositionBefore(sorted, c, d);
    }
  }

  /** In the sorted pool a pair stands before those it outranks. */
  lemma PositionBefore(sorted: seq<Candidate>, c: Candidate, d: Candidate) returns (i: nat, j: nat)
    requires InOrder(sorted, CandidateBefore) && c in sorted && d in sorted && Outranks(c, d)
    ensures i < j < |sorted| && sorted[i] == c && sorted[j] == d
  {
    RankIsOutranking(c, d);
    i :| 0 <= i < |sorted| && sorted[i] == c;
    j :| 0 <= j < |sorted| && sorted[j] == d;
    assert StrictWeak(CandidateBefore);
    PrecedingIsEarlier(sorted, CandidateBefore, j, i);
  }

  // --- the quota phase, told from the fields alone -------------------------------------------------------

  function QuotaPosition(s: Stratum): nat {
    match s
    case LocalOverlap => 0
    case SemanticNeighbor => 1
    case UsageEvidence => 2
    case HardNegativeProbe => 3
    case DiversityProbe => 4
  }

  /** The quota is met, or every pair of the stratum left out has a saturated endpoint. */
  ghost predicate QuotaMet(pool: seq<Candidate>, selected: seq<Candidate>, maxFanout: int, s: Stratum, maxPairs: int) {
    || Count(selected, s) >= Target(maxPairs, s)
    || (forall c :: c in pool && c.stratum == s && c !in selected ==> Saturated(selected, maxFanout, c))
  }

  /**
   The strata are served one after the other, none beyond its quota, each until its quota is met or
   its pairs run out; the phase ends before the last stratum only when the queue is full.
   */
  ghost predicate QuotaPhase(pool: seq<Candidate>, picks: seq<Candidate>, maxFanout: int, maxPairs: int) {
    && (forall s :: Count(picks, s) <= Target(maxPairs, s))
    && (forall i, j :: 0 <= i < j < |picks| ==> QuotaPosition(picks[i].stratum) <= QuotaPosition(picks[j].stratum))
    && (forall i, s :: 0 <= i < |picks| && QuotaPosition(s) < QuotaPosition(picks[i].stratum) ==> QuotaMet(pool, picks, maxFanout, s, maxPairs))
    && (|picks| < maxPairs ==> forall s :: QuotaMet(pool, picks, maxFanout, s, maxPairs))
    && BestOfStratum(pool, picks, maxFanout)
  }

  /** What is added after the quotas: no hard negative, in order of rank, and never past an unsaturated pair that outranks it. */
  ghost predicate Redistribution(pool: seq<Candidate>, quota: nat, selected: seq<Candidate>, maxFanout: int) {
    && quota <= |selected|
    && (forall j :: quota <= j < |selected| ==> selected[j].stratum != HardNegativeProbe)
    && (forall i, j :: quota <= i < j < |selected| ==> Outranks(selected[i], selected[j]))
    && (forall c, j :: quota <= j < |selected| && c in pool && c !in selected && c.stratum != HardNegativeProbe && Outranks(c, selected[j]) ==>
          Saturated(selected, maxFanout, c))
  }

  /** Quotas are shares of the size bound: thirty, thirty, fifteen, twenty and five in a hundred, which fill it. */
  lemma QuotasFillTheQueue(n: int)
    requires n >= 1
    ensures Target(20 * n, LocalOverlap) == Target(20 * n, SemanticNeighbor) == 6 * n
    ensures Target(20 * n, UsageEvidence) == 3 * n && Target(20 * n, HardNegativeProbe) == 4 * n && Target(20 * n, DiversityProbe) == n
  {
  }

  // --- one quota ---------------------------------------------------------------------------------------

  ghost predicate NoneOf(selected: seq<Candidate>, s: Stratum) {
    forall c :: c in selected ==> c.stratum != s
  }

  lemma {:induction false} NoneCountsZero(selected: seq<Candidate>, s: Stratum)
    requires NoneOf(selected, s)
    ensures Count(selected, s) == 0
  {
    if selected != [] {
      assert selected[|selected| - 1] in selected;
      NoneCountsZero(selected[..|selected| - 1], s);
    }
  }

  /** The selection while one stratum's quota is being filled: `n` candidates have been looked at. */
  ghost predicate Filling(candidates: seq<Candidate>, before: seq<Candidate>, selected: seq<Candidate>, maxFanout: int, s: Stratum, n: nat) {
    && Sound(candidates, selected, maxFanout)
    && Tried(candidates, selected, maxFanout, s, n)
    && (forall j: nat :: n <= j < |candidates| && candidates[j].stratum == s ==> candidates[j] !in selected)
    && OnlyAdds(before, selected, s)
  }

  /** Nothing but candidates of the one stratum was added. */
  ghost predicate OnlyAdds(before: seq<Candidate>, selected: seq<Candidate>, s: Stratum) {
    && before <= selected
    && (forall t :: t != s ==> Count(selected, t) == Count(before, t))
    && (forall t :: t != s && NoneOf(before, t) ==> NoneOf(selected, t))
    && (forall i :: |before| <= i < |selected| ==> selected[i].stratum == s)
  }

  lemma FillOne(candidates: seq<Candidate>, before: seq<Candidate>, selected: seq<Candidate>, maxFanout: int, n: nat)
    requires Pool(candidates) && n < |candidates| && Filling(candidates, before, selected, maxFanout, candidates[n].stratum, n)
    ensures Filling(candidates, before, selected + [candidates[n]], maxFanout, candidates[n].stratum, n + 1)
    ensures Count(selected + [candidates[n]], candidates[n].stratum) == Count(selected, candidates[n].stratum) + 1
  {
    var c, more := candidates[n], selected + [candidates[n]];
    TakeKeepsSound(candidates, selected, maxFanout, n);
    forall t ensures Count(more, t) == Count(selected, t) + (if c.stratum == t then 1 else 0) {
      CountMore(selected, c, t);
    }
    assert Tried(candidates, more, maxFanout, c.stratum, n);
  }

  lemma SkipOne(candidates: seq<Candidate>, before: seq<Candidate>, selected: seq<Candidate>, maxFanout: int, s: Stratum, n: nat)
    requires n < |candidates| && Filling(candidates, before, selected, maxFanout, s, n)
    requires candidates[n].stratum != s || Saturated(selected, maxFanout, candidates[n])
    ensures Filling(candidates, before, selected, maxFanout, s, n + 1)
  {
  }

  /** How a quota pass may end: the queue is full, the quota is met, or the stratum is exhausted. */
  ghost predicate QuotaDone(candidates: seq<Candidate>, selected: seq<Candidate>, maxFanout: int, s: Stratum, maxPairs: int) {
    || |selected| >= maxPairs
    || Count(selected, s) == Target(maxPairs, s)
    || Tried(candidates, selected, maxFanout, s, |candidates|)
  }

  /** One candidate of the stratum, selected unless it is saturated. */
  method TryForQuota(sel: Selection, candidates: seq<Candidate>, ghost before: seq<Candidate>, n: nat) returns (ok: bool)
    requires Pool(candidates) && sel.Valid() && n < |candidates|
    requires Filling(candidates, before, sel.selected, sel.maxFanout, candidates[n].stratum, n)
    modifies sel
    ensures sel.Valid() && Filling(candidates, before, sel.selected, sel.maxFanout, candidates[n].stratum, n + 1)
    ensures ok <==> !Saturated(old(sel.selected), sel.maxFanout, candidates[n])
    ensures sel.selected == if ok then old(sel.selected) + [candidates[n]] else old(sel.selected)
    ensures Count(sel.selected, candidates[n].stratum) == Count(old(sel.selected), candidates[n].stratum) + if ok then 1 else 0
  {
    assert candidates[n] in candidates;
    FillOne(candidates, before, sel.selected, sel.maxFanout, n);
    ok := sel.Select(candidates[n]);
    if !ok {
      SkipOne(candidates, before, sel.selected, sel.maxFanout, candidates[n].stratum, n);
    }
  }

  /** Fills the quota of one stratum from the ranked candidates. */
  method FillQuota(sel: Selection, candidates: seq<Candidate>, s: Stratum, maxPairs: int)
    requires Pool(candidates) && sel.Valid() && Sound(candidates, sel.selected, sel.maxFanout)
    requires NoneOf(sel.selected, s) && (|sel.selected| < maxPairs || sel.selected == [])
    modifies sel
    ensures sel.Valid() && Sound(candidates, sel.selected, sel.maxFanout)
    ensures |sel.selected| <= (if maxPairs > 1 then maxPairs else 1)
    ensures OnlyAdds(old(sel.selected), sel.selected, s)
    ensures Count(sel.selected, s) <= Target(maxPairs, s)
    ensures QuotaDone(candidates, sel.selected, sel.maxFanout, s, maxPairs)
    ensures maxPairs <= 0 ==> (sel.selected == [] <==> sel.maxFanout < 1 || forall c :: c in candidates ==> c.stratum != s)
  {
    NoneCountsZero(sel.selected, s);
    ghost var before := sel.selected;
    var taken := 0;
    for n := 0 to |candidates|
      invariant sel.Valid() && Filling(candidates, before, sel.selected, sel.maxFanout, s, n)
      invariant taken == Count(sel.selected, s) < Target(maxPairs, s)
      invariant |sel.selected| < maxPairs || sel.selected == []
      invariant maxPairs <= 0 ==> sel.selected == [] && forall i :: 0 <= i < n ==> candidates[i].stratum != s
    {
      assert candidates[n] in candidates;
      if candidates[n].stratum != s {
        SkipOne(candidates, before, sel.selected, sel.maxFanout, s, n);
      } else {
        var ok := TryForQuota(sel, candidates, before, n);
        if ok {
          taken := taken + 1;
        }
        if taken >= Target(maxPairs, s) || |sel.selected| >= maxPairs {
          break;
        }
      }
    }
  }

  // --- redistribution ------------------------------------------------------------------------------------

  lemma PairNamesCandidate(candidates: seq<Candidate>, c: Candidate, d: Candidate)
    requires Pool(candidates) && c in candidates && d in candidates && c.pair == d.pair
    ensures c == d
  {
    var i: nat :| i < |candidates| && candidates[i] == c;
    var j: nat :| j < |candidates| && candidates[j] == d;
    assert i == j;
  }

  /** Every stratum that takes part in redistribution has been tried this far. */
  ghost predicate Redistributed(candidates: seq<Candidate>, selected: seq<Candidate>, maxFanout: int, n: nat) {
    forall s :: s != HardNegativeProbe ==> Tried(candidates, selected, maxFanout, s, n)
  }

  /** A stratum falls short of its quota only when the queue is full or its candidates ran out. */
  ghost predicate QuotaRespected(candidates: seq<Candidate>, selected: seq<Candidate>, maxFanout: int, s: Stratum, maxPairs: int) {
    |selected| >= maxPairs || Count(selected, s) >= Target(maxPairs, s) || Tried(candidates, selected, maxFanout, s, |candidates|)
  }

  ghost predicate QuotasRespected(candidates: seq<Candidate>, selected: seq<Candidate>, maxFanout: int, maxPairs: int, done: set<Stratum>) {
    forall s :: s in done ==> QuotaRespected(candidates, selected, maxFanout, s, maxPairs)
  }

  lemma RedistributeOne(candidates: seq<Candidate>, selected: seq<Candidate>, maxFanout: int, maxPairs: int, done: set<Stratum>, n: nat)
    requires Pool(candidates) && Sound(candidates, selected, maxFanout) && n < |candidates|
    requires Redistributed(candidates, selected, maxFanout, n) && QuotasRespected(candidates, selected, maxFanout, maxPairs, done)
    requires candidates[n].stratum != HardNegativeProbe && candidates[n] !in selected
    ensures Sound(candidates, selected + [candidates[n]], maxFanout)
    ensures Redistributed(candidates, selected + [candidates[n]], maxFanout, n + 1)
    ensures QuotasRespected(candidates, selected + [candidates[n]], maxFanout, maxPairs, done)
    ensures Count(selected + [candidates[n]], HardNegativeProbe) == Count(selected, HardNegativeProbe)
  {
    var more := selected + [candidates[n]];
    TakeKeepsSound(candidates, selected, maxFanout, n);
    CountMore(selected, candidates[n], HardNegativeProbe);
    forall s | s in done ensures QuotaRespected(candidates, more, maxFanout, s, maxPairs) {
      assert QuotaRespected(candidates, selected, maxFanout, s, maxPairs);
      CountMore(selected, candidates[n], s);
    }
    var next := n + 1;
    forall s | s != HardNegativeProbe ensures Tried(candidates, more, maxFanout, s, next) {
      assert Tried(candidates, selected, maxFanout, s, n);
    }
  }

  lemma RedistributeSkip(candidates: seq<Candidate>, selected: seq<Candidate>, maxFanout: int, n: nat)
    requires n < |candidates| && Redistributed(candidates, selected, maxFanout, n)
    requires candidates[n].stratum == HardNegativeProbe || candidates[n] in selected || Saturated(selected, maxFanout, candidates[n])
    ensures Redistributed(candidates, selected, maxFanout, n + 1)
  {
    var next := n + 1;
    forall s | s != HardNegativeProbe ensures Tried(candidates, selected, maxFanout, s, next) {
      assert Tried(candidates, selected, maxFanout, s, n);
    }
  }

  /** What redistribution has added so far: pairs among the first `n`, in their order, none a hard negative. */
  ghost predicate AddedInOrder(candidates: seq<Candidate>, quota: nat, selected: seq<Candidate>, n: nat) {
    exists at :: AddedAt(candidates, quota, selected, n, at)
  }

  ghost predicate AddedAt(candidates: seq<Candidate>, quota: nat, selected: seq<Candidate>, n: nat, at: seq<nat>) {
    && quota + |at| == |selected| && n <= |candidates|
    && (forall i :: 0 <= i < |at| ==> at[i] < n && selected[quota + i] == candidates[at[i]] && candidates[at[i]].stratum != HardNegativeProbe)
    && (forall i, j :: 0 <= i < j < |at| ==> at[i] < at[j])
  }

  lemma AddOne(candidates: seq<Candidate>, quota: nat, selected: seq<Candidate>, n: nat)
    requires AddedInOrder(candidates, quota, selected, n) && n < |candidates|
    ensures AddedInOrder(candidates, quota, selected, n + 1)
    ensures candidates[n].stratum != HardNegativeProbe ==> AddedInOrder(candidates, quota, selected + [candidates[n]], n + 1)
  {
    var at :| AddedAt(candidates, quota, selected, n, at);
    assert AddedAt(candidates, quota, selected, n + 1, at);
    if candidates[n].stratum != HardNegativeProbe {
      assert AddedAt(candidates, quota, selected + [candidates[n]], n + 1, at + [n]);
    }
  }

  lemma AddedIsRedistribution(pool: seq<Candidate>, quota: nat, selected: seq<Candidate>, maxFanout: int, n: nat)
    requires Pool(pool) && AddedInOrder(SortBy(pool, CandidateBefore), quota, selected, n)
    requires Redistributed(SortBy(pool, CandidateBefore), selected, maxFanout, n)
    ensures Redistribution(pool, quota, selected, maxFanout)
  {
    var sorted := SortBy(pool, CandidateBefore);
    SortedPool(pool);
    var at :| AddedAt(sorted, quota, selected, n, at);
    forall j | quota <= j < |selected| ensures selected[j] == sorted[at[j - quota]] && selected[j].stratum != HardNegativeProbe {
    }
    forall i, j | quota <= i < j < |selected| ensures Outranks(selected[i], selected[j]) {
      EarlierOutranks(sorted, at[i - quota], at[j - quota]);
    }
    forall c, j | quota <= j < |selected| && c in pool && c !in selected && c.stratum != HardNegativeProbe && Outranks(c, selected[j])
      ensures Saturated(selected, maxFanout, c)
    {
      var i, k := PositionBefore(sorted, c, selected[j]);
      assert sorted[k].pair == sorted[at[j - quota]].pair;
      assert k == at[j - quota];
      assert Tried(sorted, selected, maxFanout, c.stratum, n);
    }
  }

  lemma EarlierOutranks(sorted: seq<Candidate>, i: nat, j: nat)
    requires Pool(sorted) && InOrder(sorted, CandidateBefore) && i < j < |sorted|
    ensures Outranks(sorted[i], sorted[j])
  {
    RankIsOutranking(sorted[i], sorted[j]);
    assert !CandidateBefore(sorted[j], sorted[i]) && sorted[i].pair != sorted[j].pair;
    DistinctNames(sorted[i].stratum, sorted[j].stratum);
  }

  lemma DistinctNames(s: Stratum, t: Stratum)
    ensures NameOrder(s) == NameOrder(t) ==> s == t
  {
  }

  method Redistribute(sel: Selection, candidates: seq<Candidate>, maxPairs: int, ghost done: set<Stratum>) returns (ghost n: nat)
    requires Pool(candidates) && sel.Valid() && Sound(candidates, sel.selected, sel.maxFanout)
    requires |sel.selected| < maxPairs && QuotasRespected(candidates, sel.selected, sel.maxFanout, maxPairs, done)
    modifies sel
    ensures sel.Valid() && Sound(candidates, sel.selected, sel.maxFanout) && |sel.selected| <= maxPairs
    ensures QuotasRespected(candidates, sel.selected, sel.maxFanout, maxPairs, done)
    ensures Count(sel.selected, HardNegativeProbe) == Count(old(sel.selected), HardNegativeProbe)
    ensures |sel.selected| == maxPairs || n == |candidates|
    ensures Redistributed(candidates, sel.selected, sel.maxFanout, n) && AddedInOrder(candidates, |old(sel.selected)|, sel.selected, n)
    ensures old(sel.selected) <= sel.selected
  {
    ghost var quota := |sel.selected|;
    assert AddedAt(candidates, quota, sel.selected, 0, []);
    n := 0;
    for k := 0 to |candidates|
      invariant sel.Valid() && Sound(candidates, sel.selected, sel.maxFanout) && |sel.selected| < maxPairs
      invariant n == k && Redistributed(candidates, sel.selected, sel.maxFanout, n)
      invariant AddedInOrder(candidates, quota, sel.selected, n) && old(sel.selected) <= sel.selected
      invariant QuotasRespected(candidates, sel.selected, sel.maxFanout, maxPairs, done)
      invariant Count(sel.selected, HardNegativeProbe) == Count(old(sel.selected), HardNegativeProbe)
    {
      var c := candidates[k];
      assert c in candidates;
      AddOne(candidates, quota, sel.selected, k);
      n := k + 1;
      if c.pair in sel.selectedIds {
        ghost var d :| d in sel.selected && d.pair == c.pair;
        PairNamesCandidate(candidates, c, d);
        RedistributeSkip(candidates, sel.selected, sel.maxFanout, k);
      } else if c.stratum == HardNegativeProbe {
        RedistributeSkip(candidates, sel.selected, sel.maxFanout, k);
      } else {
        RedistributeOne(candidates, sel.selected, sel.maxFanout, maxPairs, done, k);
        var ok := sel.Select(c);
        if !ok {
          RedistributeSkip(candidates, sel.selected, sel.maxFanout, k);
        }
        if |sel.selected| >= maxPairs {
          break;
        }
      }
    }
  }

  // --- the whole queue --------------------------------------------------------------------------------------

  /** Every pair left out has a saturated endpoint, hard negatives aside. */
  ghost predicate Maximal(candidates: seq<Candidate>, selected: seq<Candidate>, maxFanout: int) {
    forall c :: c in candidates && c !in selected && c.stratum != HardNegativeProbe ==> Saturated(selected, maxFanout, c)
  }

  lemma SortedPool(pool: seq<Candidate>)
    requires Pool(pool)
    ensures Pool(SortBy(pool, CandidateBefore)) && InOrder(SortBy(pool, CandidateBefore), CandidateBefore)
    ensures forall c :: c in SortBy(pool, CandidateBefore) <==> c in pool
  {
    var sorted := SortBy(pool, CandidateBefore);
    assert StrictWeak(CandidateBefore);
    assert Distinct(pool);
    SortDistinct(pool, CandidateBefore);
    SortKeeps(pool, CandidateBefore);
    forall i, j | 0 <= i < j < |sorted| ensures sorted[i].pair != sorted[j].pair {
      assert sorted[i] in pool && sorted[j] in pool && sorted[i] != sorted[j];
      if sorted[i].pair == sorted[j].pair {
        PairNamesCandidate(pool, sorted[i], sorted[j]);
      }
    }
  }

  lemma {:induction false} DegreeMonotone(before: seq<Candidate>, selected: seq<Candidate>, v: Id)
    requires before <= selected
    ensures Degree(before, v) <= Degree(selected, v)
    decreases |selected|
  {
    if |before| < |selected| {
      DegreeMonotone(before, selected[..|selected| - 1], v);
    } else {
      assert before == selected;
    }
  }

  lemma QuotasStay(candidates: seq<Candidate>, before: seq<Candidate>, selected: seq<Candidate>, maxFanout: int, maxPairs: int, done: set<Stratum>, s: Stratum)
    requires OnlyAdds(before, selected, s) && s !in done
    requires QuotasRespected(candidates, before, maxFanout, maxPairs, done) && QuotaDone(candidates, selected, maxFanout, s, maxPairs)
    ensures QuotasRespected(candidates, selected, maxFanout, maxPairs, done + {s})
  {
    forall t | t in done ensures QuotaRespected(candidates, selected, maxFanout, t, maxPairs) {
      assert QuotaRespected(candidates, before, maxFanout, t, maxPairs);
      if Tried(candidates, before, maxFanout, t, |candidates|) {
        forall i: nat | i < |candidates| && candidates[i].stratum == t && candidates[i] !in selected
          ensures Saturated(selected, maxFanout, candidates[i])
        {
          assert candidates[i] !in before;
          DegreeMonotone(before, selected, candidates[i].left);
          DegreeMonotone(before, selected, candidates[i].right);
        }
      }
    }
  }

  /** The first `k` quotas are settled and the remaining strata untouched. */
  ghost predicate QuotasSettled(candidates: seq<Candidate>, selected: seq<Candidate>, maxFanout: int, maxPairs: int, k: nat) {
    && k <= |QUOTA_ORDER|
    && (forall t :: t in QUOTA_ORDER[k..] ==> NoneOf(selected, t))
    && QuotasRespected(candidates, selected, maxFanout, maxPairs, Elements(QUOTA_ORDER[..k]))
    && Count(selected, HardNegativeProbe) <= Target(maxPairs, HardNegativeProbe)
  }

  lemma SettleQuota(candidates: seq<Candidate>, before: seq<Candidate>, selected: seq<Candidate>, maxFanout: int, maxPairs: int, k: nat)
    requires k < |QUOTA_ORDER| && QuotasSettled(candidates, before, maxFanout, maxPairs, k)
    requires OnlyAdds(before, selected, QUOTA_ORDER[k]) && Count(selected, QUOTA_ORDER[k]) <= Target(maxPairs, QUOTA_ORDER[k])
    requires QuotaDone(candidates, selected, maxFanout, QUOTA_ORDER[k], maxPairs)
    ensures QuotasSettled(candidates, selected, maxFanout, maxPairs, k + 1)
  {
    var s, done, next := QUOTA_ORDER[k], Elements(QUOTA_ORDER[..k]), QUOTA_ORDER[..k + 1];
    assert next == QUOTA_ORDER[..k] + [s];
    assert s !in done && s !in QUOTA_ORDER[k + 1..];
    QuotasStay(candidates, before, selected, maxFanout, maxPairs, done, s);
    assert Elements(next) == done + {s};
  }

  /** The first `k` strata have been served. */
  ghost predicate Served(candidates: seq<Candidate>, selected: seq<Candidate>, maxFanout: int, maxPairs: int, k: nat) {
    && (forall i :: 0 <= i < |selected| ==> QuotaPosition(selected[i].stratum) < k)
    && (forall i, j :: 0 <= i < j < |selected| ==> QuotaPosition(selected[i].stratum) <= QuotaPosition(selected[j].stratum))
    && (forall s :: Count(selected, s) <= Target(maxPairs, s))
    && (forall i, s :: 0 <= i < |selected| && QuotaPosition(s) < QuotaPosition(selected[i].stratum) ==>
          QuotaMet(candidates, selected, maxFanout, s, maxPairs))
    && (|selected| < maxPairs ==> forall s :: QuotaPosition(s) < k ==> QuotaMet(candidates, selected, maxFanout, s, maxPairs))
  }

  lemma MetStays(candidates: seq<Candidate>, before: seq<Candidate>, selected: seq<Candidate>, maxFanout: int, s: Stratum, t: Stratum, maxPairs: int)
    requires OnlyAdds(before, selected, t) && s != t && QuotaMet(candidates, before, maxFanout, s, maxPairs)
    ensures QuotaMet(candidates, selected, maxFanout, s, maxPairs)
  {
    if Count(before, s) < Target(maxPairs, s) {
      forall c | c in candidates && c.stratum == s && c !in selected ensures Saturated(selected, maxFanout, c) {
        assert c !in before;
        DegreeMonotone(before, selected, c.left);
        DegreeMonotone(before, selected, c.right);
      }
    }
  }

  lemma DoneIsMet(candidates: seq<Candidate>, selected: seq<Candidate>, maxFanout: int, s: Stratum, maxPairs: int)
    requires QuotaDone(candidates, selected, maxFanout, s, maxPairs) && |selected| < maxPairs
    ensures QuotaMet(candidates, selected, maxFanout, s, maxPairs)
  {
    if Tried(candidates, selected, maxFanout, s, |candidates|) {
      forall c | c in candidates && c.stratum == s && c !in selected ensures Saturated(selected, maxFanout, c) {
        var i: nat :| i < |candidates| && candidates[i] == c;
      }
    }
  }

  lemma ServeStratum(candidates: seq<Candidate>, before: seq<Candidate>, selected: seq<Candidate>, maxFanout: int, maxPairs: int, k: nat)
    requires k < |QUOTA_ORDER| && Served(candidates, before, maxFanout, maxPairs, k) && (k == 0 || |before| < maxPairs)
    requires OnlyAdds(before, selected, QUOTA_ORDER[k]) && Count(selected, QUOTA_ORDER[k]) <= Target(maxPairs, QUOTA_ORDER[k])
    requires QuotaDone(candidates, selected, maxFanout, QUOTA_ORDER[k], maxPairs)
    ensures Served(candidates, selected, maxFanout, maxPairs, k + 1)
  {
    var t := QUOTA_ORDER[k];
    assert QuotaPosition(t) == k;
    forall s | QuotaPosition(s) < k ensures s != t && QuotaMet(candidates, selected, maxFanout, s, maxPairs) {
      MetStays(candidates, before, selected, maxFanout, s, t, maxPairs);
    }
    forall s | QuotaPosition(s) == k ensures s == t {
    }
    if |selected| < maxPairs {
      DoneIsMet(candidates, selected, maxFanout, t, maxPairs);
    }
    forall i | 0 <= i < |before| ensures selected[i] == before[i] {
    }
  }

  /** The quota phase: every stratum in turn until the queue is full. */
  method FillQuotas(sel: Selection, candidates: seq<Candidate>, maxPairs: int)
    requires Pool(candidates) && sel.Valid() && sel.selected == []
    modifies sel
    ensures sel.Valid() && Sound(candidates, sel.selected, sel.maxFanout)
    ensures |sel.selected| <= (if maxPairs > 1 then maxPairs else 1)
    ensures Count(sel.selected, HardNegativeProbe) <= Target(maxPairs, HardNegativeProbe)
    ensures forall s :: QuotaRespected(candidates, sel.selected, sel.maxFanout, s, maxPairs)
    ensures exists k: nat :: k <= |QUOTA_ORDER| && Served(candidates, sel.selected, sel.maxFanout, maxPairs, k) && (k == |QUOTA_ORDER| || |sel.selected| >= maxPairs)
    ensures maxPairs <= 0 ==> (sel.selected == [] <==> sel.maxFanout < 1 || forall c :: c in candidates ==> c.stratum != LocalOverlap)
  {
    for k := 0 to |QUOTA_ORDER|
      invariant sel.Valid() && Sound(candidates, sel.selected, sel.maxFanout)
      invariant QuotasSettled(candidates, sel.selected, sel.maxFanout, maxPairs, k)
      invariant Served(candidates, sel.selected, sel.maxFanout, maxPairs, k)
      invariant k == 0 ==> sel.selected == []
      invariant k > 0 ==> |sel.selected| < maxPairs
    {
      ghost var was := sel.selected;
      FillQuota(sel, candidates, QUOTA_ORDER[k], maxPairs);
      SettleQuota(candidates, was, sel.selected, sel.maxFanout, maxPairs, k);
      ServeStratum(candidates, was, sel.selected, sel.maxFanout, maxPairs, k);
      if |sel.selected| >= maxPairs {
        break;
      }
    }
    if |sel.selected| < maxPairs {
      forall s ensures s in Elements(QUOTA_ORDER[..|QUOTA_ORDER|]) { EveryStratumHasAQuota(s); }
    }
  }

  lemma EveryStratumHasAQuota(s: Stratum)
    ensures s in QUOTA_ORDER
  {
    assert QUOTA_ORDER[match s case LocalOverlap => 0 case SemanticNeighbor => 1 case UsageEvidence => 2 case HardNegativeProbe => 3 case DiversityProbe => 4] == s;
  }

  /**
   The queue. It never exceeds its size bound except that a bound below one still lets one
   local-overlap pair through, and when it stops short no pair could have been added.
   */
  method Build(pool: seq<Candidate>, maxPairs: int, maxFanout: int) returns (selected: seq<Candidate>, ghost quota: nat)
    requires Pool(pool)
    ensures Sound(SortBy(pool, CandidateBefore), selected, maxFanout) && Bounded(selected, maxFanout)
    ensures |selected| <= (if maxPairs > 1 then maxPairs else 1)
    ensures |selected| <= maxPairs <==>
            maxPairs >= 1 || (maxPairs == 0 && (maxFanout < 1 || forall c :: c in pool ==> c.stratum != LocalOverlap))
    ensures |selected| < maxPairs ==> Maximal(pool, selected, maxFanout)
    ensures |selected| < maxPairs ==> forall rival :: Admissible(pool, rival, maxFanout) ==> |rival| <= 2 * |selected|
    ensures Count(selected, HardNegativeProbe) <= Target(maxPairs, HardNegativeProbe)
    ensures forall s :: QuotaRespected(SortBy(pool, CandidateBefore), selected, maxFanout, s, maxPairs)
    ensures BestOfStratum(pool, selected, maxFanout)
    ensures Redistribution(pool, quota, selected, maxFanout) && QuotaPhase(pool, selected[..quota], maxFanout, maxPairs)
  {
    var candidates := SortBy(pool, CandidateBefore);
    SortedPool(pool);
    var sel := new Selection(maxFanout);
    FillQuotas(sel, candidates, maxPairs);
    quota := |sel.selected|;
    ghost var picks, n := sel.selected, 0;
    ServedIsQuotaPhase(pool, picks, maxFanout, maxPairs);
    assert AddedAt(candidates, quota, picks, 0, []);
    if |sel.selected| < maxPairs {
      forall s ensures s in Elements(QUOTA_ORDER) { EveryStratumHasAQuota(s); }
      n := Redistribute(sel, candidates, maxPairs, Elements(QUOTA_ORDER));
      if |sel.selected| < maxPairs {
        TriedIsMaximal(candidates, sel.selected, maxFanout);
        forall rival | Admissible(pool, rival, maxFanout) ensures |rival| <= 2 * |sel.selected| {
          MaximalIsHalfOptimal(pool, sel.selected, maxFanout, rival);
        }
      }
    }
    selected := sel.selected;
    assert selected[..quota] == picks;
    FairIsRanked(pool, selected, maxFanout);
    AddedIsRedistribution(pool, quota, selected, maxFanout, n);
  }

  lemma ServedIsQuotaPhase(pool: seq<Candidate>, picks: seq<Candidate>, maxFanout: int, maxPairs: int)
    requires Pool(pool) && Sound(SortBy(pool, CandidateBefore), picks, maxFanout)
    requires exists k: nat :: k <= |QUOTA_ORDER| && Served(SortBy(pool, CandidateBefore), picks, maxFanout, maxPairs, k) && (k == |QUOTA_ORDER| || |picks| >= maxPairs)
    ensures QuotaPhase(pool, picks, maxFanout, maxPairs)
  {
    var sorted := SortBy(pool, CandidateBefore);
    SortedPool(pool);
    FairIsRanked(pool, picks, maxFanout);
    forall s ensures QuotaMet(pool, picks, maxFanout, s, maxPairs) <==> QuotaMet(sorted, picks, maxFanout, s, maxPairs) {
    }
    assert forall s :: QuotaPosition(s) < |QUOTA_ORDER|;
  }

  /** A size bound of zero lets one local-overlap pair through. */
  method ZeroBoundTakesOne(c: Candidate) returns (selected: seq<Candidate>)
    requires c.stratum == LocalOverlap && c.left != c.right
    ensures selected == [c]
  {
    ghost var quota;
    selected, quota := Build([c], 0, 1);
    SortedPool([c]);
    assert selected[0] in SortBy([c], CandidateBefore);
  }

  lemma TriedIsMaximal(candidates: seq<Candidate>, selected: seq<Candidate>, maxFanout: int)
    requires Redistributed(candidates, selected, maxFanout, |candidates|)
    ensures Maximal(candidates, selected, maxFanout)
  {
    forall c | c in candidates && c !in selected && c.stratum != HardNegativeProbe ensures Saturated(selected, maxFanout, c) {
      var i: nat :| i < |candidates| && candidates[i] == c;
      assert Tried(candidates, selected, maxFanout, c.stratum, |candidates|);
    }
  }

  // --- a maximal choice is within a factor two of any other ---------------------------------------------------

  /** Another way to fill the queue from the same pool under the same fanout bound. */
  ghost predicate Admissible(pool: seq<Candidate>, rival: set<Candidate>, maxFanout: int) {
    && (forall c :: c in rival ==> c in pool && c.stratum != HardNegativeProbe)
    && (forall v :: |At(rival, v)| <= maxFanout || At(rival, v) == {})
  }

  ghost function At(cs: set<Candidate>, v: Id): set<Candidate> {
    set c | c in cs && (c.left == v || c.right == v)
  }

  ghost function Lowered(cap: Id -> int, m: Candidate): Id -> int {
    (v: Id) => if v == m.left || v == m.right then cap(v) - 1 else cap(v)
  }

  ghost predicate Blocked(chosen: set<Candidate>, rival: set<Candidate>, cap: Id -> int) {
    forall c :: c in rival && c !in chosen ==> |At(chosen, c.left)| >= cap(c.left) || |At(chosen, c.right)| >= cap(c.right)
  }

  ghost predicate Respects(cs: set<Candidate>, cap: Id -> int) {
    forall v :: At(cs, v) != {} ==> |At(cs, v)| <= cap(v)
  }

  lemma AtWithout(cs: set<Candidate>, m: Candidate, v: Id)
    requires m in cs
    ensures At(cs - {m}, v) == At(cs, v) - {m}
    ensures |At(cs - {m}, v)| == |At(cs, v)| - (if m.left == v || m.right == v then 1 else 0)
  {
    assert At(cs - {m}, v) == At(cs, v) - {m};
  }

  /** Removes from the rival one edge at `v`, if it has one and `m` is not that edge already. */
  ghost function OneAt(rival: set<Candidate>, v: Id): set<Candidate> {
    if At(rival, v) == {} then {} else
      var c :| c in At(rival, v);
      {c}
  }

  /** The rival edges charged to the chosen edge `m`: `m` itself, or one edge at each endpoint. */
  ghost function Charged(rival: set<Candidate>, m: Candidate): (charged: set<Candidate>)
    ensures |charged| <= 2 && charged <= rival
  {
    if m in rival then {m} else
      var a := OneAt(rival, m.left);
      var b := OneAt(rival - a, m.right);
      assert |a + b| <= 2;
      a + b
  }

  lemma ChargeRespects(chosen: set<Candidate>, rival: set<Candidate>, cap: Id -> int, m: Candidate)
    requires m in chosen && m.left != m.right && Respects(chosen, cap) && Respects(rival, cap)
    ensures Respects(rival - Charged(rival, m), Lowered(cap, m))
    ensures m !in rival - Charged(rival, m)
  {
    var next := rival - Charged(rival, m);
    forall v | At(next, v) != {} ensures |At(next, v)| <= Lowered(cap, m)(v) {
      assert At(next, v) <= At(rival, v);
      SubsetSize(At(next, v), At(rival, v));
      if v == m.left || v == m.right {
        var c := ChargedTouches(rival, m, v);
        assert c !in At(next, v);
        SmallerSet(At(next, v), At(rival, v), c);
      }
    }
  }

  lemma ChargedTouches(rival: set<Candidate>, m: Candidate, v: Id) returns (c: Candidate)
    requires (v == m.left || v == m.right) && At(rival - Charged(rival, m), v) != {}
    ensures c in Charged(rival, m) && c in At(rival, v)
  {
    if m in rival {
      c := m;
    } else {
      var a := OneAt(rival, m.left);
      var b := OneAt(rival - a, m.right);
      var d :| d in At(rival - Charged(rival, m), v);
      assert d in At(rival, v);
      if v == m.left {
        c :| c in a;
      } else {
        assert d in At(rival - a, v);
        c :| c in b;
      }
    }
  }

  lemma BlockedStays(chosen: set<Candidate>, rival: set<Candidate>, cap: Id -> int, m: Candidate)
    requires m in chosen && Respects(chosen, cap) && Blocked(chosen, rival, cap)
    ensures Respects(chosen - {m}, Lowered(cap, m))
    ensures m !in rival ==> Blocked(chosen - {m}, rival, Lowered(cap, m))
  {
    var fewer, lower := chosen - {m}, Lowered(cap, m);
    forall v ensures |At(fewer, v)| == |At(chosen, v)| - (if m.left == v || m.right == v then 1 else 0) {
      AtWithout(chosen, m, v);
    }
    forall v | At(fewer, v) != {} ensures |At(fewer, v)| <= lower(v) {
      assert At(fewer, v) <= At(chosen, v);
    }
  }

  lemma EndpointsAllowed(rival: set<Candidate>, cap: Id -> int, c: Candidate)
    requires Respects(rival, cap) && c in rival
    ensures cap(c.left) >= 1 && cap(c.right) >= 1
  {
    assert c in At(rival, c.left) && c in At(rival, c.right);
  }

  lemma EmptyAt(v: Id)
    ensures |At({}, v)| == 0
  {
    assert At({}, v) == {};
  }

  lemma NothingToCharge(rival: set<Candidate>, cap: Id -> int)
    requires Respects(rival, cap) && Blocked({}, rival, cap)
    ensures rival == {}
  {
    forall v { EmptyAt(v); }
    forall c | c in rival { EndpointsAllowed(rival, cap, c); }
  }

  /** Every rival edge is charged to a chosen one, and no chosen edge is charged more than twice. */
  lemma {:induction false} HalfOptimal(chosen: set<Candidate>, rival: set<Candidate>, cap: Id -> int)
    requires forall c :: c in chosen ==> c.left != c.right
    requires Respects(chosen, cap) && Respects(rival, cap) && Blocked(chosen, rival, cap)
    ensures |rival| <= 2 * |chosen|
    decreases |chosen|
  {
    if chosen == {} {
      NothingToCharge(rival, cap);
    } else {
      var m :| m in chosen;
      var rest := rival - Charged(rival, m);
      ChargeRespects(chosen, rival, cap, m);
      assert Blocked(chosen, rest, cap);
      BlockedStays(chosen, rest, cap, m);
      HalfOptimal(chosen - {m}, rest, Lowered(cap, m));
      assert rival == rest + Charged(rival, m);
    }
  }

  lemma {:induction false} DegreeIsAt(selected: seq<Candidate>, v: Id)
    requires Distinct(selected) && forall c :: c in selected ==> c.left != c.right
    ensures Degree(selected, v) == |At(Elements(selected), v)|
  {
    if selected == [] {
      assert At(Elements(selected), v) == {};
    } else {
      var init, last := selected[..|selected| - 1], selected[|selected| - 1];
      assert selected == init + [last];
      DegreeIsAt(init, v);
      AtWithout(Elements(selected), last, v);
      assert Elements(selected) - {last} == Elements(init);
    }
  }

  lemma MaximalIsHalfOptimal(pool: seq<Candidate>, selected: seq<Candidate>, maxFanout: int, rival: set<Candidate>)
    requires Pool(pool) && Chosen(pool, selected) && Bounded(selected, maxFanout) && Maximal(pool, selected, maxFanout)
    requires Admissible(pool, rival, maxFanout)
    ensures |rival| <= 2 * |selected|
  {
    var chosen := Elements(selected);
    forall v ensures Degree(selected, v) == |At(chosen, v)| {
      DegreeIsAt(selected, v);
    }
    DistinctSize(selected);
    HalfOptimal(chosen, rival, (v: Id) => maxFanout);
  }
}
