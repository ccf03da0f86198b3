/**
 The binding budget of a neighbourhood synthesis result: the precision-first projection
 of an overflowing proposal, the normalisation that records what it left unbound, and the
 coverage rules of the validator that must accept the outcome.
 */
module BindingBudget {
  import opened Wrappers
  import opened Ordering

  datatype Role =
    | Identity | Event | Measure | Status | Time | Geography | Category | Attribute | Evidence | Context
    | OtherRole(name: Id)

  datatype Authority = Unknown | Primary | Secondary | Derived | Conflicting | Unlisted(name: Id)

  datatype Binding = Binding(
    node: Id, population: Id, role: Role, authority: Authority, confidence: real, evidence: seq<Id>)

  /** What the model sent: an entry that is no object, or has a field of the wrong type, is Malformed. */
  datatype RawBinding = Malformed | Raw(binding: Binding)

  /** `None` stands for a value that is not a list; a node without a string key is `None` too. */
  datatype Payload = Payload(nodes: Option<seq<Option<Id>>>, bindings: Option<seq<RawBinding>>)

  datatype Work = Work(populations: set<Id>, evidence: set<Id>, roles: set<Role>, maxBindings: int)

  // --- which binding is preferred, told from the fields alone ----------------------------

  const ROLES: seq<Role> := [Identity, Event, Measure, Status, Time, Geography, Category, Attribute, Evidence, Context]

  /** Listed earlier, or listed at all when the other is not. */
  ghost predicate EarlierRole(a: Role, b: Role) {
    a in ROLES && (b !in ROLES || exists i, j :: 0 <= i < j < |ROLES| && ROLES[i] == a && ROLES[j] == b)
  }

  /** More confident; as confident in an earlier role; then the lesser population, then the lesser node. */
  ghost predicate Prefers(a: Binding, b: Binding) {
    || a.confidence > b.confidence
    || (a.confidence == b.confidence && EarlierRole(a.role, b.role))
    || (a.confidence == b.confidence && !EarlierRole(b.role, a.role) &&
        (a.population < b.population || (a.population == b.population && a.node < b.node)))
  }

  /** Preferred, or listed first among equals. */
  ghost predicate Ahead(bs: seq<Binding>, i: nat, j: nat)
    requires i < |bs| && j < |bs|
  {
    Prefers(bs[i], bs[j]) || (!Prefers(bs[j], bs[i]) && i < j)
  }

  /**
   What is kept: a dropped binding stands behind a kept one of its own node, and behind every
   kept one that is not the first of its node.
   */
  ghost predicate KeepsPreferred(bs: seq<Binding>, kept: set<nat>) {
    forall j: nat :: j < |bs| && j !in kept ==>
      && (exists i: nat :: i in kept && i < |bs| && bs[i].node == bs[j].node && Ahead(bs, i, j))
      && (forall i: nat, k: nat :: i in kept && i < |bs| && k < |bs| && k != i && bs[k].node == bs[i].node && Ahead(bs, k, i) ==> Ahead(bs, i, j))
  }

  // --- which payloads are projected ---------------------------------------------------

  function NodeKeys(nodes: seq<Option<Id>>): (keys: seq<Id>)
    ensures forall n :: n in keys <==> Some(n) in nodes
    ensures |keys| <= |nodes|
  {
    if nodes == [] then []
    else (if nodes[0].Some? then [nodes[0].value] else []) + NodeKeys(nodes[1..])
  }

  ghost predicate WellFormed(work: Work, nodes: set<Id>, b: Binding) {
    && b.node in nodes
    && b.population in work.populations
    && b.role in work.roles
    && !b.authority.Unlisted?
    && 0.0 <= b.confidence <= 1.0
    && b.evidence != []
    && Distinct(b.evidence)
    && forall e :: e in b.evidence ==> e in work.evidence
  }

  function Key(b: Binding): (Id, Id, Role) {
    (b.node, b.population, b.role)
  }

  ghost predicate DistinctKeys(bs: seq<Binding>) {
    forall i, j :: 0 <= i < j < |bs| ==> Key(bs[i]) != Key(bs[j])
  }

  ghost predicate Decodes(raw: seq<RawBinding>, bs: seq<Binding>) {
    |raw| == |bs| && forall i :: 0 <= i < |raw| ==> raw[i] == Raw(bs[i])
  }

  /** The overflow is otherwise well-formed, so the projection may repair it. */
  ghost predicate Applies(work: Work, payload: Payload, bs: seq<Binding>) {
    && payload.nodes.Some? && payload.bindings.Some?
    && var keys := NodeKeys(payload.nodes.value);
       && 1 <= work.maxBindings < |payload.bindings.value|
       && 0 < |keys| <= work.maxBindings
       && Distinct(keys)
       && Decodes(payload.bindings.value, bs)
       && (forall i :: 0 <= i < |bs| ==> WellFormed(work, Elements(keys), bs[i]))
       && DistinctKeys(bs)
       && Covers(bs, Elements(keys), Indices(bs))
  }

  // --- rank, selection and total confidence ---------------------------------------------

  function RolePriority(role: Role): int {
    match role
    case Identity => 0
    case Event => 1
    case Measure => 2
    case Status => 3
    case Time => 4
    case Geography => 5
    case Category => 6
    case Attribute => 7
    case Evidence => 8
    case Context => 9
    case OtherRole(_) => 99
  }

  /** A binding together with its position, so that the order is total. */
  datatype Ranked = Ranked(index: nat, binding: Binding)

  predicate Before(x: Ranked, y: Ranked) {
    var a, b := x.binding, y.binding;
    if a.confidence != b.confidence then a.confidence > b.confidence
    else if RolePriority(a.role) != RolePriority(b.role) then RolePriority(a.role) < RolePriority(b.role)
    else if a.population != b.population then a.population < b.population
    else if a.node != b.node then a.node < b.node
    else x.index < y.index
  }

  predicate RankBefore(bs: seq<Binding>, i: nat, j: nat)
    requires i < |bs| && j < |bs|
  {
    Before(Ranked(i, bs[i]), Ranked(j, bs[j]))
  }

  ghost function Indices(bs: seq<Binding>): set<nat> {
    set i: nat | i < |bs| && bs[i] in bs
  }

  ghost predicate CoversNode(bs: seq<Binding>, node: Id, kept: set<nat>) {
    exists i :: i in kept && i < |bs| && bs[i].node == node
  }

  ghost predicate Covers(bs: seq<Binding>, nodes: set<Id>, kept: set<nat>) {
    forall n :: n in nodes ==> CoversNode(bs, n, kept)
  }

  ghost predicate IsBest(bs: seq<Binding>, i: nat) {
    i < |bs| && forall j: nat :: j < |bs| && j != i && bs[j].node == bs[i].node ==> RankBefore(bs, i, j)
  }

  ghost function Bests(bs: seq<Binding>): set<nat> {
    set i: nat | i < |bs| && IsBest(bs, i)
  }

  /** The code's choice: the best binding of every node, then the best-ranked others. */
  ghost predicate PrecisionFirst(bs: seq<Binding>, max: int, kept: set<nat>) {
    && Bests(bs) <= kept <= Indices(bs)
    && |kept| == max
    && forall i, j: nat :: i in kept && i < |bs| && i !in Bests(bs) && j < |bs| && j !in kept ==> RankBefore(bs, i, j)
  }

  ghost function Total(bs: seq<Binding>, kept: set<nat>, n: nat): real
    requires n <= |bs|
  {
    if n == 0 then 0.0
    else Total(bs, kept, n - 1) + (if n - 1 in kept then bs[n - 1].confidence else 0.0)
  }

  /** The kept bindings in their original order. */
  function Project(bs: seq<Binding>, kept: set<nat>, n: nat): (r: seq<Binding>)
    requires n <= |bs|
    ensures forall b :: b in r <==> exists i: nat :: i < n && i in kept && bs[i] == b
  {
    if n == 0 then []
    else
      var r := Project(bs, kept, n - 1);
      if n - 1 in kept then r + [bs[n - 1]] else r
  }

  /** `r` picks from `bs` the elements at exactly the kept positions, in the order of `bs`. */
  ghost predicate InOriginalOrder(bs: seq<Binding>, kept: set<nat>, r: seq<Binding>) {
    exists at :: Picks(bs, kept, r, at)
  }

  ghost predicate Picks(bs: seq<Binding>, kept: set<nat>, r: seq<Binding>, at: seq<nat>) {
    && |at| == |r| && Elements(at) == kept
    && (forall i, j :: 0 <= i < j < |at| ==> at[i] < at[j])
    && (forall i :: 0 <= i < |r| ==> at[i] < |bs| && r[i] == bs[at[i]])
  }

  /** The kept positions below `n`, one after the other. */
  ghost function Positions(kept: set<nat>, n: nat): (at: seq<nat>) {
    if n == 0 then [] else Positions(kept, n - 1) + (if n - 1 in kept then [n - 1] else [])
  }

  lemma {:induction false} PositionsRise(kept: set<nat>, n: nat)
    ensures forall i, j :: 0 <= i < j < |Positions(kept, n)| ==> Positions(kept, n)[i] < Positions(kept, n)[j]
    ensures forall k: nat :: k in Positions(kept, n) <==> k in kept && k < n
  {
    if n > 0 {
      PositionsRise(kept, n - 1);
      var before := Positions(kept, n - 1);
      forall i | 0 <= i < |before| ensures before[i] < n - 1 {
        assert before[i] in before;
      }
    }
  }

  lemma {:induction false} ProjectAtPositions(bs: seq<Binding>, kept: set<nat>, n: nat)
    requires n <= |bs|
    ensures |Project(bs, kept, n)| == |Positions(kept, n)|
    ensures forall i :: 0 <= i < |Positions(kept, n)| ==> Positions(kept, n)[i] < |bs| && Project(bs, kept, n)[i] == bs[Positions(kept, n)[i]]
  {
    if n > 0 {
      ProjectAtPositions(bs, kept, n - 1);
      assert Project(bs, kept, n) == Project(bs, kept, n - 1) + (if n - 1 in kept then [bs[n - 1]] else []);
    }
  }

  /** The projection lists the kept bindings as the payload does. */
  lemma ProjectInOrder(bs: seq<Binding>, kept: set<nat>)
    requires kept <= Indices(bs)
    ensures InOriginalOrder(bs, kept, Project(bs, kept, |bs|))
  {
    var at := Positions(kept, |bs|);
    PositionsRise(kept, |bs|);
    ProjectAtPositions(bs, kept, |bs|);
    assert forall k :: k in Elements(at) <==> k in at;
    assert Elements(at) == kept;
    assert Picks(bs, kept, Project(bs, kept, |bs|), at);
  }

  // --- optimality of the choice ---------------------------------------------------------

  lemma {:induction false} TotalSwap(bs: seq<Binding>, kept: set<nat>, g: nat, f: nat, n: nat)
    requires n <= |bs| && g in kept && f !in kept && g < |bs| && f < |bs|
    ensures Total(bs, kept - {g} + {f}, n) ==
            Total(bs, kept, n) - (if g < n then bs[g].confidence else 0.0)
                               + (if f < n then bs[f].confidence else 0.0)
  {
    if n > 0 {
      TotalSwap(bs, kept, g, f, n - 1);
    }
  }

  lemma SwapSize(kept: set<nat>, g: nat, f: nat)
    requires g in kept && f !in kept
    ensures |kept - {g} + {f}| == |kept|
  {
    assert |kept - {g}| == |kept| - 1;
  }

  lemma RankAsymmetric(bs: seq<Binding>, i: nat, j: nat)
    requires i < |bs| && j < |bs| && RankBefore(bs, i, j)
    ensures !RankBefore(bs, j, i)
    ensures bs[i].confidence >= bs[j].confidence
  {
  }

  /** `other` is a rival choice: as many bindings, every node covered. */
  ghost predicate Rival(bs: seq<Binding>, nodes: set<Id>, max: int, other: set<nat>) {
    other <= Indices(bs) && |other| == max && Covers(bs, nodes, other)
  }

  /** A choice no rival beats on total confidence. */
  ghost predicate Optimal(bs: seq<Binding>, nodes: set<Id>, max: int, kept: set<nat>) {
    && Rival(bs, nodes, max, kept)
    && forall other :: Rival(bs, nodes, max, other) ==> Total(bs, other, |bs|) <= Total(bs, kept, |bs|)
  }

  lemma OneSwap(bs: seq<Binding>, max: int, other: set<nat>, out: nat, into: nat) returns (next: set<nat>)
    requires other <= Indices(bs) && |other| == max
    requires out in other && into in Indices(bs) && into !in other
    requires bs[into].confidence >= bs[out].confidence
    ensures next == other - {out} + {into}
    ensures next <= Indices(bs) && |next| == max
    ensures Total(bs, other, |bs|) <= Total(bs, next, |bs|)
  {
    next := other - {out} + {into};
    SwapSize(other, out, into);
    TotalSwap(bs, other, out, into, |bs|);
  }

  /** A missing best binding can take the place of the rival's binding for the same node. */
  lemma CoverSwap(bs: seq<Binding>, nodes: set<Id>, max: int, other: set<nat>, b: nat) returns (next: set<nat>)
    requires Rival(bs, nodes, max, other) && b in Bests(bs) && b !in other && bs[b].node in nodes
    ensures Rival(bs, nodes, max, next) && Total(bs, other, |bs|) <= Total(bs, next, |bs|)
    ensures |Bests(bs) - next| < |Bests(bs) - other|
  {
    assert CoversNode(bs, bs[b].node, other);
    var t :| t in other && t < |bs| && bs[t].node == bs[b].node;
    assert RankBefore(bs, b, t);
    RankAsymmetric(bs, b, t);
    assert !IsBest(bs, t);
    next := OneSwap(bs, max, other, t, b);
    forall n | n in nodes ensures CoversNode(bs, n, next) {
      assert CoversNode(bs, n, other);
      var i :| i in other && i < |bs| && bs[i].node == n;
      assert (if i == t then b else i) in next;
    }
    assert Bests(bs) - next == Bests(bs) - other - {b};
  }

  /** Once the rival has every best binding, a kept filler can replace one that was dropped. */
  lemma FillSwap(bs: seq<Binding>, nodes: set<Id>, max: int, kept: set<nat>, other: set<nat>) returns (f: nat, next: set<nat>)
    requires PrecisionFirst(bs, max, kept) && Rival(bs, nodes, max, other)
    requires Bests(bs) <= other && other != kept
    ensures Rival(bs, nodes, max, next) && Total(bs, other, |bs|) <= Total(bs, next, |bs|)
    ensures f in kept && f !in other && |kept - next| < |kept - other| && Bests(bs) <= next
  {
    var g;
    f, g := SameSizeDiffer(kept, other);
    RankAsymmetric(bs, f, g);
    next := OneSwap(bs, max, other, g, f);
    BestsCover(bs, nodes, next, other);
    assert kept - next == kept - other - {f};
  }

  /**
   No covering choice of the same size has a larger total confidence. The rival is turned
   into the code's own choice one swap at a time, and no swap lowers its total.
   */
  lemma {:induction false} PrecisionFirstIsOptimal(
      bs: seq<Binding>, nodes: set<Id>, max: int, kept: set<nat>, other: set<nat>)
    requires PrecisionFirst(bs, max, kept)
    requires forall i :: 0 <= i < |bs| ==> bs[i].node in nodes
    requires Rival(bs, nodes, max, other)
    ensures Total(bs, other, |bs|) <= Total(bs, kept, |bs|)
    decreases |Bests(bs) - other|, |kept - other|
  {
    var missing := Bests(bs) - other;
    if missing != {} {
      var b :| b in missing;
      var next := CoverSwap(bs, nodes, max, other, b);
      PrecisionFirstIsOptimal(bs, nodes, max, kept, next);
    } else if other != kept {
      assert forall b :: b in Bests(bs) ==> b in other || b in missing;
      var f, next := FillSwap(bs, nodes, max, kept, other);
      assert Bests(bs) - next == {};
      PrecisionFirstIsOptimal(bs, nodes, max, kept, next);
    }
  }

  lemma SameSizeDiffer(kept: set<nat>, other: set<nat>) returns (f: nat, g: nat)
    requires |kept| == |other| && other != kept
    ensures f in kept && f !in other && g in other && g !in kept
  {
    assert |kept - other| == |kept| - |kept * other|;
    assert |other - kept| == |other| - |kept * other|;
    assert kept == (kept - other) + kept * other && other == (other - kept) + kept * other;
    assert kept - other != {};
    f :| f in kept - other;
    g :| g in other - kept;
  }

  /** Every node has a best binding, by descent along the rank order. */
  lemma {:induction false} SomeBest(bs: seq<Binding>, i: nat, rest: set<nat>) returns (b: nat)
    requires i < |bs|
    requires forall j: nat :: j < |bs| && j != i && bs[j].node == bs[i].node && j !in rest ==> RankBefore(bs, i, j)
    ensures b in Bests(bs) && bs[b].node == bs[i].node
    decreases |rest|
  {
    if j: nat :| j in rest && j < |bs| && j != i && bs[j].node == bs[i].node && !RankBefore(bs, i, j) {
      assert rest - {j} < rest;
      b := SomeBest(bs, j, rest - {j});
    } else {
      assert IsBest(bs, i);
      b := i;
    }
  }

  lemma BestsCover(bs: seq<Binding>, nodes: set<Id>, kept: set<nat>, other: set<nat>)
    requires Bests(bs) <= kept && Covers(bs, nodes, other)
    ensures Covers(bs, nodes, kept)
  {
    forall n | n in nodes ensures CoversNode(bs, n, kept) {
      assert CoversNode(bs, n, other);
      var i :| i in other && i < |bs| && bs[i].node == n;
      var b := SomeBest(bs, i, Indices(bs));
    }
  }

  /** The choice is a function of the bindings: two sets built by the rule are the same set. */
  lemma PrecisionFirstIsUnique(bs: seq<Binding>, max: int, kept: set<nat>, other: set<nat>)
    requires PrecisionFirst(bs, max, kept) && PrecisionFirst(bs, max, other)
    ensures kept == other
  {
    if kept != other {
      var f, g := SameSizeDiffer(kept, other);
      RankAsymmetric(bs, f, g);
    }
  }

  lemma RoleListed(r: Role)
    ensures if r.OtherRole? then r !in ROLES && RolePriority(r) >= |ROLES| else RolePriority(r) < |ROLES| && ROLES[RolePriority(r)] == r
  {
  }

  lemma RoleAt(i: nat)
    requires i < |ROLES|
    ensures RolePriority(ROLES[i]) == i && !ROLES[i].OtherRole?
  {
  }

  lemma RoleOrder(a: Role, b: Role)
    ensures EarlierRole(a, b) <==> RolePriority(a) < RolePriority(b)
  {
    RoleListed(a);
    RoleListed(b);
    if EarlierRole(a, b) && b in ROLES {
      var i, j :| 0 <= i < j < |ROLES| && ROLES[i] == a && ROLES[j] == b;
      RoleAt(i);
      RoleAt(j);
    }
  }

  /** The rank by which the code sorts is the preference. */
  lemma RankIsPreference(bs: seq<Binding>, i: nat, j: nat)
    requires i < |bs| && j < |bs| && i != j
    ensures RankBefore(bs, i, j) <==> Ahead(bs, i, j)
  {
    RoleOrder(bs[i].role, bs[j].role);
    RoleOrder(bs[j].role, bs[i].role);
  }

  lemma BeatenByBest(bs: seq<Binding>, max: int, kept: set<nat>, j: nat) returns (i: nat)
    requires PrecisionFirst(bs, max, kept) && j < |bs| && j !in kept
    ensures i in kept && i < |bs| && bs[i].node == bs[j].node && Ahead(bs, i, j)
  {
    i := SomeBest(bs, j, Indices(bs));
    RankIsPreference(bs, i, j);
  }

  lemma BeatenByFillers(bs: seq<Binding>, max: int, kept: set<nat>, i: nat, j: nat, k: nat)
    requires PrecisionFirst(bs, max, kept) && j < |bs| && j !in kept && i in kept && i < |bs|
    requires k < |bs| && k != i && bs[k].node == bs[i].node && Ahead(bs, k, i)
    ensures Ahead(bs, i, j)
  {
    RankIsPreference(bs, k, i);
    RankAsymmetric(bs, k, i);
    assert i !in Bests(bs);
    RankIsPreference(bs, i, j);
  }

  /** Precision first, in terms of the fields. */
  lemma PrecisionFirstKeepsPreferred(bs: seq<Binding>, max: int, kept: set<nat>)
    requires PrecisionFirst(bs, max, kept)
    ensures KeepsPreferred(bs, kept)
  {
    forall j: nat | j < |bs| && j !in kept
      ensures exists i: nat :: i in kept && i < |bs| && bs[i].node == bs[j].node && Ahead(bs, i, j)
    {
      var i := BeatenByBest(bs, max, kept, j);
    }
    forall i: nat, j: nat, k: nat | j < |bs| && j !in kept && i in kept && i < |bs| && k < |bs| && k != i && bs[k].node == bs[i].node && Ahead(bs, k, i)
      ensures Ahead(bs, i, j)
    {
      BeatenByFillers(bs, max, kept, i, j, k);
    }
  }

  // --- the projection itself --------------------------------------------------------------

  lemma BeforeIsStrictWeak()
    ensures StrictWeak(Before)
  {
  }

  method BestFor(bs: seq<Binding>, node: Id) returns (best: Option<nat>)
    ensures best.None? <==> forall i :: 0 <= i < |bs| ==> bs[i].node != node
    ensures best.Some? ==> best.value in Bests(bs) && bs[best.value].node == node
  {
    best := None;
    for i := 0 to |bs|
      invariant best.None? <==> forall j :: 0 <= j < i ==> bs[j].node != node
      invariant best.Some? ==> best.value < i && bs[best.value].node == node
      invariant best.Some? ==> forall j: nat :: j < i && j != best.value && bs[j].node == node ==> RankBefore(bs, best.value, j)
    {
      if bs[i].node == node && (best.None? || RankBefore(bs, i, best.value)) {
        best := Some(i);
      }
    }
  }

  /** The indices not selected yet, in their original order. */
  function Others(bs: seq<Binding>, selected: set<nat>, n: nat): (r: seq<Ranked>)
    requires n <= |bs|
    ensures forall x :: x in r <==> x.index < n && x.index !in selected && x.binding == bs[x.index]
    ensures forall i, j :: 0 <= i < j < |r| ==> r[i].index < r[j].index
  {
    if n == 0 then []
    else
      var r := Others(bs, selected, n - 1);
      if n - 1 in selected then r else r + [Ranked(n - 1, bs[n - 1])]
  }

  lemma {:induction false} OthersSize(bs: seq<Binding>, selected: set<nat>, n: nat)
    requires n <= |bs|
    ensures |Others(bs, selected, n)| + |selected| >= n
    decreases n
  {
    if n > 0 {
      if n - 1 in selected {
        var fewer := selected - {n - 1};
        assert |fewer| == |selected| - 1;
        OthersSize(bs, fewer, n - 1);
        OthersIgnores(bs, selected, fewer, n - 1);
      } else {
        OthersSize(bs, selected, n - 1);
      }
    }
  }

  lemma {:induction false} OthersIgnores(bs: seq<Binding>, selected: set<nat>, fewer: set<nat>, n: nat)
    requires n <= |bs| && forall i: nat :: i < n ==> (i in fewer <==> i in selected)
    ensures Others(bs, fewer, n) == Others(bs, selected, n)
  {
    if n > 0 {
      OthersIgnores(bs, selected, fewer, n - 1);
      assert n - 1 in fewer <==> n - 1 in selected;
    }
  }

  function PositionsOf(rs: seq<Ranked>): set<nat> {
    set x | x in rs :: x.index
  }

  lemma {:induction false} PositionsSize(rs: seq<Ranked>)
    requires forall i, j :: 0 <= i < j < |rs| ==> rs[i].index != rs[j].index
    ensures |PositionsOf(rs)| == |rs|
  {
    if rs == [] {
    } else {
      PositionsSize(rs[1..]);
      assert PositionsOf(rs) == {rs[0].index} + PositionsOf(rs[1..]);
    }
  }

  /** Topping the best bindings up with a prefix of the ranked rest gives the precision-first choice. */
  lemma PrefixIsPrecisionFirst(bs: seq<Binding>, selected: set<nat>, ranked: seq<Ranked>, m: nat)
    requires selected == Bests(bs) && m <= |ranked|
    requires forall x :: x in ranked <==> x.index < |bs| && x.index !in selected && x.binding == bs[x.index]
    requires InOrder(ranked, Before) && Distinct(ranked)
    ensures PrecisionFirst(bs, |selected| + m, selected + PositionsOf(ranked[..m]))
  {
    var kept := selected + PositionsOf(ranked[..m]);
    forall i, j | 0 <= i < j < |ranked| ensures ranked[i].index != ranked[j].index {
      assert ranked[i] in ranked && ranked[j] in ranked;
    }
    PositionsSize(ranked[..m]);
    forall x | x in ranked[..m] ensures x.index < |bs| && x.index !in selected { assert x in ranked; }
    assert selected !! PositionsOf(ranked[..m]);
    forall i, j: nat | i in kept && i < |bs| && i !in Bests(bs) && j < |bs| && j !in kept ensures RankBefore(bs, i, j) {
      var x :| x in ranked[..m] && x.index == i;
      KeptPrecedesDropped(bs, ranked, m, x, Ranked(j, bs[j]));
    }
  }

  lemma KeptPrecedesDropped(bs: seq<Binding>, ranked: seq<Ranked>, m: nat, x: Ranked, y: Ranked)
    requires m <= |ranked| && InOrder(ranked, Before)
    requires x in ranked[..m] && y in ranked && y.index !in PositionsOf(ranked[..m])
    ensures Before(x, y)
  {
    var a :| 0 <= a < m && ranked[a] == x;
    var b :| 0 <= b < |ranked| && ranked[b] == y;
    assert forall i :: 0 <= i < m ==> ranked[..m][i] == ranked[i];
    assert !Before(ranked[b], ranked[a]);
    assert x.index != y.index by { assert ranked[..m][a] == x; }
  }

  lemma FillIsPrecisionFirst(bs: seq<Binding>, selected: set<nat>, max: int)
    requires selected == Bests(bs) && |selected| <= max < |bs|
    ensures |SortBy(Others(bs, selected, |bs|), Before)| >= max - |selected|
    ensures PrecisionFirst(bs, max, selected + PositionsOf(SortBy(Others(bs, selected, |bs|), Before)[..max - |selected|]))
  {
    var others := Others(bs, selected, |bs|);
    OthersSize(bs, selected, |bs|);
    BeforeIsStrictWeak();
    SortDistinct(others, Before);
    SortKeeps(others, Before);
    PrefixIsPrecisionFirst(bs, selected, SortBy(others, Before), max - |selected|);
  }

  /** The covered nodes are all of them, so nothing but the best bindings was selected, and all of those. */
  lemma BestsAreSelected(bs: seq<Binding>, nodes: set<Id>, selected: set<nat>)
    requires selected <= Bests(bs) && Covers(bs, nodes, selected)
    requires forall i :: 0 <= i < |bs| ==> bs[i].node in nodes
    ensures selected == Bests(bs)
  {
    forall b | b in Bests(bs) ensures b in selected {
      assert CoversNode(bs, bs[b].node, selected);
      var i :| i in selected && i < |bs| && bs[i].node == bs[b].node;
      if i != b {
        RankAsymmetric(bs, i, b);
      }
    }
  }

  lemma {:induction false} ProjectSize(bs: seq<Binding>, kept: set<nat>, n: nat)
    requires n <= |bs|
    ensures |Project(bs, kept, n)| == |set i | i in kept && i < n|
  {
    if n == 0 {
      assert (set i | i in kept && i < n) == {};
    } else {
      ProjectSize(bs, kept, n - 1);
      var below := set i | i in kept && i < n - 1;
      if n - 1 in kept {
        assert (set i | i in kept && i < n) == below + {n - 1};
      } else {
        assert (set i | i in kept && i < n) == below;
      }
    }
  }

  /** The checks of one binding, made one after the other. */
  method CheckBinding(work: Work, nodes: set<Id>, b: Binding) returns (ok: bool)
    ensures ok <==> WellFormed(work, nodes, b)
  {
    if b.node !in nodes || b.population !in work.populations || b.role !in work.roles || b.authority.Unlisted? {
      return false;
    }
    if b.confidence < 0.0 || b.confidence > 1.0 || b.evidence == [] || !Distinct(b.evidence) {
      return false;
    }
    for k := 0 to |b.evidence|
      invariant forall e :: e in b.evidence[..k] ==> e in work.evidence
    {
      var item := b.evidence[k];
      assert item in b.evidence && b.evidence[..k + 1] == b.evidence[..k] + [item];
      if item !in work.evidence {
        return false;
      }
    }
    assert b.evidence[..|b.evidence|] == b.evidence;
    return true;
  }

  /** Every listed binding decoded and checked against the bounded references, or nothing. */
  method CheckBindings(work: Work, nodes: set<Id>, raw: seq<RawBinding>) returns (r: Option<seq<Binding>>)
    ensures r.Some? ==> Decodes(raw, r.value) && DistinctKeys(r.value)
    ensures r.Some? ==> forall i :: 0 <= i < |r.value| ==> WellFormed(work, nodes, r.value[i])
    ensures r.None? ==> !exists bs :: Decodes(raw, bs) && DistinctKeys(bs) && forall i :: 0 <= i < |bs| ==> WellFormed(work, nodes, bs[i])
  {
    var bs: seq<Binding> := [];
    var seen: set<(Id, Id, Role)> := {};
    for i := 0 to |raw|
      invariant Decodes(raw[..i], bs) && DistinctKeys(bs)
      invariant forall k :: 0 <= k < |bs| ==> WellFormed(work, nodes, bs[k])
      invariant seen == set b | b in bs :: Key(b)
    {
      var ok := false;
      if raw[i].Raw? {
        ok := CheckBinding(work, nodes, raw[i].binding);
      }
      if !ok || Key(raw[i].binding) in seen {
        forall other | Decodes(raw, other)
          ensures !DistinctKeys(other) || exists k :: 0 <= k < |other| && !WellFormed(work, nodes, other[k])
        {
          assert raw[i] == Raw(other[i]);
          if Key(raw[i].binding) in seen {
            var k :| 0 <= k < |bs| && Key(bs[k]) == Key(raw[i].binding);
            assert raw[..i][k] == raw[k] == Raw(other[k]);
            assert Key(other[k]) == Key(other[i]);
          }
        }
        return None;
      }
      bs := bs + [raw[i].binding];
      seen := seen + {Key(raw[i].binding)};
      assert raw[..i + 1] == raw[..i] + [raw[i]];
    }
    assert raw[..|raw|] == raw;
    return Some(bs);
  }

  lemma DecodesUnique(raw: seq<RawBinding>, bs: seq<Binding>, other: seq<Binding>)
    requires Decodes(raw, bs) && Decodes(raw, other)
    ensures bs == other
  {
    assert forall i :: 0 <= i < |raw| ==> Raw(bs[i]) == Raw(other[i]);
  }

  lemma ProjectCovers(bs: seq<Binding>, nodes: set<Id>, kept: set<nat>)
    requires Covers(bs, nodes, kept)
    ensures Covers(Project(bs, kept, |bs|), nodes, Indices(Project(bs, kept, |bs|)))
  {
    var r := Project(bs, kept, |bs|);
    forall n | n in nodes ensures CoversNode(r, n, Indices(r)) {
      assert CoversNode(bs, n, kept);
      var i :| i in kept && i < |bs| && bs[i].node == n;
      assert bs[i] in r;
      var j: nat :| j < |r| && r[j] == bs[i];
      assert j in Indices(r);
    }
  }

  /** The best binding of every node, or nothing when some node has none. */
  method SelectBests(bs: seq<Binding>, keys: seq<Id>) returns (r: Option<set<nat>>)
    requires forall i :: 0 <= i < |bs| ==> bs[i].node in Elements(keys)
    ensures r.None? ==> !Covers(bs, Elements(keys), Indices(bs))
    ensures r.Some? ==> r.value == Bests(bs) && |r.value| <= |keys| && Covers(bs, Elements(keys), r.value)
  {
    var selected: set<nat> := {};
    for k := 0 to |keys|
      invariant selected <= Bests(bs) && |selected| <= k
      invariant forall n :: n in keys[..k] ==> CoversNode(bs, n, selected)
    {
      var best := BestFor(bs, keys[k]);
      if best.None? {
        assert keys[k] in Elements(keys) && !CoversNode(bs, keys[k], Indices(bs));
        return None;
      }
      ghost var was := selected;
      selected := selected + {best.value};
      forall n | n in keys[..k + 1] ensures CoversNode(bs, n, selected) {
        if n == keys[k] {
          assert best.value in selected;
        } else {
          assert CoversNode(bs, n, was);
          var i :| i in was && i < |bs| && bs[i].node == n;
          assert i in selected;
        }
      }
    }
    BestsAreSelected(bs, Elements(keys), selected);
    return Some(selected);
  }

  /** Every check made before anything is dropped. */
  method Prepare(work: Work, payload: Payload) returns (r: Option<(seq<Binding>, set<nat>)>)
    ensures r.None? ==> !exists any :: Applies(work, payload, any)
    ensures r.Some? ==> Applies(work, payload, r.value.0) && r.value.1 == Bests(r.value.0)
    ensures r.Some? ==> |r.value.1| <= work.maxBindings
    ensures r.Some? ==> Covers(r.value.0, Elements(NodeKeys(payload.nodes.value)), r.value.1)
  {
    if payload.bindings.None? || payload.nodes.None? || |payload.bindings.value| <= work.maxBindings || work.maxBindings < 1 {
      return None;
    }
    var keys := NodeKeys(payload.nodes.value);
    if keys == [] || !Distinct(keys) || |keys| > work.maxBindings {
      return None;
    }
    var checked := CheckBindings(work, Elements(keys), payload.bindings.value);
    if checked.None? {
      return None;
    }
    var selected := SelectBests(checked.value, keys);
    if selected.None? {
      forall any | Decodes(payload.bindings.value, any) ensures any == checked.value {
        DecodesUnique(payload.bindings.value, checked.value, any);
      }
      return None;
    }
    CoversMore(checked.value, Elements(keys), selected.value, Indices(checked.value));
    return Some((checked.value, selected.value));
  }

  /**
   The projection: nothing when the payload is not a repairable overflow, otherwise the
   bindings kept, which are a choice of exactly `maxBindings` that is optimal among all
   choices of that size covering every node.
   */
  method Fit(work: Work, payload: Payload) returns (r: Option<seq<Binding>>, ghost bs: seq<Binding>, ghost kept: set<nat>)
    ensures r.None? ==> !exists any :: Applies(work, payload, any)
    ensures r.Some? ==> Applies(work, payload, bs)
    ensures r.Some? ==> r.value == Project(bs, kept, |bs|) && InOriginalOrder(bs, kept, r.value) && |r.value| == work.maxBindings
    ensures r.Some? ==> PrecisionFirst(bs, work.maxBindings, kept) && KeepsPreferred(bs, kept)
    ensures r.Some? ==> Optimal(bs, Elements(NodeKeys(payload.nodes.value)), work.maxBindings, kept)
  {
    bs, kept := [], {};
    var prepared := Prepare(work, payload);
    if prepared.None? {
      return None, bs, kept;
    }
    bs := prepared.value.0;
    var chosen := Choose(prepared.value.0, prepared.value.1, work.maxBindings, Elements(NodeKeys(payload.nodes.value)));
    r := Some(Project(prepared.value.0, chosen, |prepared.value.0|));
    kept := chosen;
    PrecisionFirstKeepsPreferred(bs, work.maxBindings, kept);
    ProjectInOrder(bs, kept);
    ProjectionShape(bs, Elements(NodeKeys(payload.nodes.value)), work.maxBindings, kept);
  }

  method Choose(bs: seq<Binding>, selected: set<nat>, max: int, ghost nodes: set<Id>) returns (kept: set<nat>)
    requires selected == Bests(bs) && |selected| <= max < |bs|
    requires forall i :: 0 <= i < |bs| ==> bs[i].node in nodes
    requires Covers(bs, nodes, selected)
    ensures PrecisionFirst(bs, max, kept) && Optimal(bs, nodes, max, kept)
  {
    FillIsPrecisionFirst(bs, selected, max);
    var remaining := SortBy(Others(bs, selected, |bs|), Before);
    kept := selected + PositionsOf(remaining[..max - |selected|]);
    CoversMore(bs, nodes, selected, kept);
    forall other | Rival(bs, nodes, max, other) ensures Total(bs, other, |bs|) <= Total(bs, kept, |bs|) {
      PrecisionFirstIsOptimal(bs, nodes, max, kept, other);
    }
  }

  lemma CoversMore(bs: seq<Binding>, nodes: set<Id>, kept: set<nat>, more: set<nat>)
    requires Covers(bs, nodes, kept) && kept <= more
    ensures Covers(bs, nodes, more)
  {
    forall n | n in nodes ensures CoversNode(bs, n, more) {
      assert CoversNode(bs, n, kept);
    }
  }

  /** The projected list has exactly the budgeted size and still binds every node. */
  lemma ProjectionShape(bs: seq<Binding>, nodes: set<Id>, max: int, kept: set<nat>)
    requires Rival(bs, nodes, max, kept)
    ensures |Project(bs, kept, |bs|)| == max
    ensures Covers(Project(bs, kept, |bs|), nodes, Indices(Project(bs, kept, |bs|)))
  {
    ProjectCovers(bs, nodes, kept);
    ProjectSize(bs, kept, |bs|);
    assert (set i | i in kept && i < |bs|) == kept;
  }
}
