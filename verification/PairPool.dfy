/**
 The pool a scope's correspondences are chosen from: pairs of populations put forward by
 blocking or by evidence, scored, and kept when they cross sources and score high enough.
 */
module PairPool {
  import opened Wrappers
  import opened Ordering
  import opened ExcavationUnits
  import Numbers
  import Keys = PairKeys
  import Queue = CandidateQueue

  /** Which indexed populations blocking pairs, how a pair is scored, and the stable id of a pair. */
  datatype Scorer = Scorer(
    blocked: seq<Id> -> set<(nat, nat)>, score: (Id, Id) -> (Queue.Stratum, real), pairId: (Id, Id) -> Id)

  // --- pair ids ---------------------------------------------------------------------------------------

  /** Among the populations given, a pair id names one unordered pair. */
  ghost predicate NamesPairs(scorer: Scorer, ids: set<Id>) {
    forall a, b, c, d :: a in ids && b in ids && c in ids && d in ids && a != b && c != d && scorer.pairId(a, b) == scorer.pairId(c, d) ==>
      {a, b} == {c, d}
  }

  /** Pair ids are digests of the keys of the populations' names. */
  ghost predicate DigestsKeys(scorer: Scorer, ids: set<Id>, name: Id -> string, digest: string -> Id) {
    && (forall a, b :: a in ids && b in ids && name(a) == name(b) ==> a == b)
    && (forall x, y :: digest(x) == digest(y) ==> x == y)
    && (forall a, b :: a in ids && b in ids && a != b ==> scorer.pairId(a, b) == digest(Keys.PairKey(name(a), name(b))))
  }

  function NamesOf(ids: set<Id>, name: Id -> string): set<string> {
    set a | a in ids :: name(a)
  }

  lemma SameNames(ids: set<Id>, name: Id -> string, a: Id, b: Id, c: Id, d: Id)
    requires forall x, y :: x in ids && y in ids && name(x) == name(y) ==> x == y
    requires a in ids && b in ids && c in ids && d in ids
    ensures {name(a), name(b)} == {name(c), name(d)} <==> {a, b} == {c, d}
  {
    Keys.SameSet(name(a), name(b), name(c), name(d));
    SameIds(a, b, c, d);
  }

  lemma SameIds(a: Id, b: Id, c: Id, d: Id)
    ensures {a, b} == {c, d} <==> (a == c && b == d) || (a == d && b == c)
  {
    if {a, b} == {c, d} {
      assert a in {c, d} && b in {c, d} && c in {a, b} && d in {a, b};
    }
  }

  /** Pair ids name the pairs of a corpus exactly when no key reads as another pair of the corpus' names. */
  lemma PairIdsNamePairsExactly(scorer: Scorer, ids: set<Id>, name: Id -> string, digest: string -> Id)
    requires DigestsKeys(scorer, ids, name, digest)
    ensures NamesPairs(scorer, ids) <==>
            forall a, b :: a in ids && b in ids && a != b ==> Keys.ReadsOnceAmong(NamesOf(ids, name), name(a), name(b))
  {
    var names := NamesOf(ids, name);
    if NamesPairs(scorer, ids) {
      forall a, b | a in ids && b in ids && a != b ensures Keys.ReadsOnceAmong(names, name(a), name(b)) {
        forall x, y | x in names && y in names && x != y && Keys.PairKey(x, y) == Keys.PairKey(name(a), name(b))
          ensures {x, y} == {name(a), name(b)}
        {
          var c, d :| c in ids && d in ids && x == name(c) && y == name(d);
          SameNames(ids, name, c, d, a, b);
        }
        Keys.KeyNamesOnePairAmong(names, name(a), name(b));
      }
    }
    if forall a, b :: a in ids && b in ids && a != b ==> Keys.ReadsOnceAmong(names, name(a), name(b)) {
      forall a, b, c, d | a in ids && b in ids && c in ids && d in ids && a != b && c != d && scorer.pairId(a, b) == scorer.pairId(c, d)
        ensures {a, b} == {c, d}
      {
        Keys.KeyNamesOnePairAmong(names, name(a), name(b));
        SameNames(ids, name, c, d, a, b);
      }
    }
  }

  /** Names without the separator are enough. */
  lemma PlainNamesNamePairs(scorer: Scorer, ids: set<Id>, name: Id -> string, digest: string -> Id)
    requires DigestsKeys(scorer, ids, name, digest) && forall a :: a in ids ==> Keys.SEPARATOR !in name(a)
    ensures NamesPairs(scorer, ids)
  {
    forall a, b | a in ids && b in ids && a != b ensures Keys.ReadsOnceAmong(NamesOf(ids, name), name(a), name(b)) {
      Keys.OneSeparator(name(a), name(b));
    }
    PairIdsNamePairsExactly(scorer, ids, name, digest);
  }

  // --- index pairs --------------------------------------------------------------------------------

  /** All pairs of indices below `n`, the smaller one first. */
  function IndexPairs(n: nat): seq<(nat, nat)> {
    if n == 0 then [] else IndexPairs(n - 1) + seq(n - 1, l => (l, n - 1))
  }

  lemma {:induction false} IndexPairsFacts(n: nat)
    ensures Distinct(IndexPairs(n))
    ensures forall p :: p in IndexPairs(n) <==> p.0 < p.1 < n
  {
    if n > 0 {
      var before, column := IndexPairs(n - 1), seq(n - 1, l => (l, n - 1));
      IndexPairsFacts(n - 1);
      forall p: (nat, nat) ensures p in column <==> p.0 < n - 1 && p.1 == n - 1 {
        if p.0 < n - 1 && p.1 == n - 1 {
          assert column[p.0] == p;
        }
      }
      forall i, j | 0 <= i < |before| && 0 <= j < |column| ensures before[i] != column[j] {
        assert before[i] in before;
      }
    }
  }

  function Filter<T(!new)>(xs: seq<T>, keep: T -> bool): (r: seq<T>)
    ensures forall x :: x in r <==> x in xs && keep(x)
  {
    if xs == [] then []
    else
      assert xs == xs[..|xs| - 1] + [xs[|xs| - 1]];
      Filter(xs[..|xs| - 1], keep) + (if keep(xs[|xs| - 1]) then [xs[|xs| - 1]] else [])
  }

  lemma {:induction false} FilterDistinct<T(!new)>(xs: seq<T>, keep: T -> bool)
    requires Distinct(xs)
    ensures Distinct(Filter(xs, keep))
  {
    if xs != [] {
      var init, last := xs[..|xs| - 1], xs[|xs| - 1];
      FilterDistinct(init, keep);
      assert last !in init;
      if keep(last) {
        DistinctMore(Filter(init, keep), last);
      }
    }
  }

  // --- the pool -------------------------------------------------------------------------------------

  /** The populations of the scope that can be paired, in corpus order. */
  function Queued(populations: seq<Population>, scope: set<Id>): seq<Population> {
    Filter(populations, (p: Population) => !p.isContext && p.source.Some? && p.source.value in scope)
  }

  function IdsOf(xs: seq<Population>): seq<Id> {
    seq(|xs|, i requires 0 <= i < |xs| => xs[i].id)
  }

  function IdSet(xs: seq<Population>): set<Id> {
    set x | x in xs :: x.id
  }

  predicate Requested(s: Queue.Stratum) {
    s.LocalOverlap? || s.SemanticNeighbor? || s.UsageEvidence?
  }

  /** Blocking or evidence puts the pair forward. */
  predicate PutForward(xs: seq<Population>, pairs: seq<(Id, Id)>, scorer: Scorer, p: (nat, nat))
    requires p.0 < |xs| && p.1 < |xs|
  {
    p in scorer.blocked(IdsOf(xs)) || (xs[p.0].id, xs[p.1].id) in pairs || (xs[p.1].id, xs[p.0].id) in pairs
  }

  predicate Scores(scorer: Scorer, minimum: real, left: Population, right: Population) {
    var (stratum, priority) := scorer.score(left.id, right.id);
    left.source != right.source && Requested(stratum) && (priority >= minimum || stratum.HardNegativeProbe?)
  }

  predicate Pairs(xs: seq<Population>, pairs: seq<(Id, Id)>, scorer: Scorer, minimum: real, p: (nat, nat)) {
    p.0 < |xs| && p.1 < |xs| && PutForward(xs, pairs, scorer, p) && Scores(scorer, minimum, xs[p.0], xs[p.1])
  }

  /** What the pool lists for a pair; its priority is rounded only after the gate has seen it. */
  function CandidateFor(scorer: Scorer, left: Id, right: Id): Queue.Candidate {
    var (stratum, priority) := scorer.score(left, right);
    Queue.Candidate(scorer.pairId(left, right), left, right, stratum, Numbers.RoundedSix(priority))
  }

  function CandidateAt(xs: seq<Population>, scorer: Scorer, p: (nat, nat)): Queue.Candidate {
    CandidateFor(scorer, if p.0 < |xs| then xs[p.0].id else 0, if p.1 < |xs| then xs[p.1].id else 0)
  }

  function Candidates(xs: seq<Population>, scorer: Scorer, kept: seq<(nat, nat)>): (r: seq<Queue.Candidate>)
    ensures |r| == |kept| && forall i :: 0 <= i < |kept| ==> r[i] == CandidateAt(xs, scorer, kept[i])
  {
    seq(|kept|, i requires 0 <= i < |kept| => CandidateAt(xs, scorer, kept[i]))
  }

  function Kept(xs: seq<Population>, pairs: seq<(Id, Id)>, scorer: Scorer, minimum: real, listed: seq<(nat, nat)>): seq<(nat, nat)> {
    Filter(listed, (p: (nat, nat)) => Pairs(xs, pairs, scorer, minimum, p))
  }

  /** The pool of a scope, before it is sorted. */
  function PoolOf(xs: seq<Population>, pairs: seq<(Id, Id)>, scorer: Scorer, minimum: real): seq<Queue.Candidate> {
    Candidates(xs, scorer, Kept(xs, pairs, scorer, minimum, IndexPairs(|xs|)))
  }

  // --- what stands in the pool, told from the populations --------------------------------------------------

  /** The kept elements of a list, in its order: the positions they had. */
  ghost predicate KeptAt<T(!new)>(xs: seq<T>, keep: T -> bool, kept: seq<T>, at: seq<nat>) {
    && |at| == |kept| && (forall i, j :: 0 <= i < j < |at| ==> at[i] < at[j])
    && (forall i :: 0 <= i < |at| ==> at[i] < |xs| && kept[i] == xs[at[i]] && keep(xs[at[i]]))
    && (forall k: nat :: k < |xs| && keep(xs[k]) ==> k in at)
  }

  lemma {:induction false} FilterKeeps<T(!new)>(xs: seq<T>, keep: T -> bool) returns (at: seq<nat>)
    ensures KeptAt(xs, keep, Filter(xs, keep), at)
    decreases |xs|
  {
    if xs == [] {
      return [];
    }
    var init := xs[..|xs| - 1];
    at := FilterKeeps(init, keep);
    KeepOneMore(xs, keep, Filter(init, keep), at);
    if keep(xs[|xs| - 1]) {
      at := at + [|xs| - 1];
    }
  }

  lemma KeepOneMore<T(!new)>(xs: seq<T>, keep: T -> bool, kept: seq<T>, at: seq<nat>)
    requires xs != [] && KeptAt(xs[..|xs| - 1], keep, kept, at)
    ensures if keep(xs[|xs| - 1]) then KeptAt(xs, keep, kept + [xs[|xs| - 1]], at + [|xs| - 1]) else KeptAt(xs, keep, kept, at)
  {
    var init := xs[..|xs| - 1];
    forall k: nat | k < |init| && keep(xs[k]) ensures k in at {
      assert init[k] == xs[k];
    }
  }

  /** A population that can be paired in the scope: no context, and from one of its sources. */
  ghost predicate Queueable(p: Population, scope: set<Id>) {
    !p.isContext && p.source.Some? && p.source.value in scope
  }

  /** The populations of the scope that can be paired, in corpus order. */
  lemma QueuedIs(populations: seq<Population>, scope: set<Id>) returns (at: seq<nat>)
    ensures KeptAt(populations, (p: Population) => Queueable(p, scope), Queued(populations, scope), at)
  {
    at := FilterKeeps(populations, (p: Population) => !p.isContext && p.source.Some? && p.source.value in scope);
  }

  ghost predicate IdsAre(xs: seq<Population>, ids: seq<Id>) {
    |ids| == |xs| && forall i :: 0 <= i < |ids| ==> ids[i] == xs[i].id
  }

  /** The candidate of two populations: nominated by blocking or evidence, of different sources, in a requested stratum and scored high enough. */
  ghost predicate Nominates(xs: seq<Population>, pairs: seq<(Id, Id)>, scorer: Scorer, minimum: real, l: nat, r: nat, c: Queue.Candidate) {
    && l < r < |xs| && xs[l].source != xs[r].source && c.left == xs[l].id && c.right == xs[r].id
    && ((exists ids :: IdsAre(xs, ids) && (l, r) in scorer.blocked(ids)) || (c.left, c.right) in pairs || (c.right, c.left) in pairs)
    && var (stratum, priority) := scorer.score(c.left, c.right);
       && stratum in {Queue.LocalOverlap, Queue.SemanticNeighbor, Queue.UsageEvidence} && priority >= minimum
       && c.pair == scorer.pairId(c.left, c.right) && c.stratum == stratum && c.priority == Numbers.RoundedSix(priority)
  }

  lemma PairsAreNominated(xs: seq<Population>, pairs: seq<(Id, Id)>, scorer: Scorer, minimum: real, l: nat, r: nat, c: Queue.Candidate)
    requires l < r < |xs|
    ensures Nominates(xs, pairs, scorer, minimum, l, r, c) <==>
            Pairs(xs, pairs, scorer, minimum, (l, r)) && c == CandidateFor(scorer, xs[l].id, xs[r].id)
  {
    var ids := IdsOf(xs);
    assert IdsAre(xs, ids);
    forall other | IdsAre(xs, other) ensures other == ids {
    }
  }

  /** The pool holds exactly the nominated candidates. */
  lemma PoolIsNominated(xs: seq<Population>, pairs: seq<(Id, Id)>, scorer: Scorer, minimum: real, c: Queue.Candidate)
    ensures c in PoolOf(xs, pairs, scorer, minimum) <==> exists l: nat, r: nat :: Nominates(xs, pairs, scorer, minimum, l, r, c)
  {
    PoolHas(xs, pairs, scorer, minimum, c);
    forall l: nat, r: nat | l < r < |xs| {
      PairsAreNominated(xs, pairs, scorer, minimum, l, r, c);
    }
    if l: nat, r: nat :| l < r < |xs| && Pairs(xs, pairs, scorer, minimum, (l, r)) && c == CandidateFor(scorer, xs[l].id, xs[r].id) {
      assert Nominates(xs, pairs, scorer, minimum, l, r, c);
    }
    if l: nat, r: nat :| Nominates(xs, pairs, scorer, minimum, l, r, c) {
      assert Pairs(xs, pairs, scorer, minimum, (l, r));
    }
  }

  /** The loop over the pairs put forward. */
  method BuildPool(xs: seq<Population>, pairs: seq<(Id, Id)>, scorer: Scorer, minimum: real) returns (pool: seq<Queue.Candidate>)
    ensures pool == PoolOf(xs, pairs, scorer, minimum)
    ensures forall c :: c in pool <==> exists l: nat, r: nat :: Nominates(xs, pairs, scorer, minimum, l, r, c)
  {
    pool := [];
    var listed := IndexPairs(|xs|);
    IndexPairsFacts(|xs|);
    for k := 0 to |listed|
      invariant pool == Candidates(xs, scorer, Kept(xs, pairs, scorer, minimum, listed[..k]))
    {
      var p := listed[k];
      assert p in listed && p.0 < |xs| && p.1 < |xs|;
      assert listed[..k + 1][..k] == listed[..k];
      if !PutForward(xs, pairs, scorer, p) {
        continue;
      }
      var left, right := xs[p.0], xs[p.1];
      if left.source == right.source {
        continue;
      }
      var (stratum, priority) := scorer.score(left.id, right.id);
      if !Requested(stratum) {
        continue;
      }
      if priority < minimum && !stratum.HardNegativeProbe? {
        continue;
      }
      pool := pool + [Queue.Candidate(scorer.pairId(left.id, right.id), left.id, right.id, stratum, Numbers.RoundedSix(priority))];
    }
    assert listed[..|listed|] == listed;
    forall c ensures c in pool <==> exists l: nat, r: nat :: Nominates(xs, pairs, scorer, minimum, l, r, c) {
      PoolIsNominated(xs, pairs, scorer, minimum, c);
    }
  }

  // --- what the pool holds -----------------------------------------------------------------------------

  ghost predicate DistinctPopulations(xs: seq<Population>) {
    forall i, j :: 0 <= i < j < |xs| ==> xs[i].id != xs[j].id
  }

  lemma {:induction false} FilterKeepsIdsDistinct(xs: seq<Population>, keep: Population -> bool)
    requires DistinctPopulations(xs)
    ensures DistinctPopulations(Filter(xs, keep))
  {
    if xs != [] {
      var init, last := xs[..|xs| - 1], xs[|xs| - 1];
      FilterKeepsIdsDistinct(init, keep);
      var kept := Filter(init, keep);
      forall i | 0 <= i < |kept| ensures kept[i].id != last.id {
        assert kept[i] in init;
        var k :| 0 <= k < |init| && init[k] == kept[i];
      }
    }
  }

  lemma KeptPairs(xs: seq<Population>, pairs: seq<(Id, Id)>, scorer: Scorer, minimum: real, p: (nat, nat))
    ensures p in Kept(xs, pairs, scorer, minimum, IndexPairs(|xs|)) <==> p.0 < p.1 < |xs| && Pairs(xs, pairs, scorer, minimum, p)
  {
    IndexPairsFacts(|xs|);
  }

  /** The pool holds exactly the candidates of the pairs put forward that score. */
  lemma PoolHas(xs: seq<Population>, pairs: seq<(Id, Id)>, scorer: Scorer, minimum: real, c: Queue.Candidate)
    ensures c in PoolOf(xs, pairs, scorer, minimum) <==>
            exists l: nat, r: nat :: l < r < |xs| && Pairs(xs, pairs, scorer, minimum, (l, r)) && c == CandidateFor(scorer, xs[l].id, xs[r].id)
  {
    var kept := Kept(xs, pairs, scorer, minimum, IndexPairs(|xs|));
    CandidatesHave(xs, scorer, kept, c);
    if p :| p in kept && CandidateAt(xs, scorer, p) == c {
      KeptPairs(xs, pairs, scorer, minimum, p);
      assert Pairs(xs, pairs, scorer, minimum, (p.0, p.1));
    }
    if l: nat, r: nat :| l < r < |xs| && Pairs(xs, pairs, scorer, minimum, (l, r)) && c == CandidateFor(scorer, xs[l].id, xs[r].id) {
      KeptPairs(xs, pairs, scorer, minimum, (l, r));
      assert CandidateAt(xs, scorer, (l, r)) == c;
    }
  }

  lemma CandidatesHave(xs: seq<Population>, scorer: Scorer, kept: seq<(nat, nat)>, c: Queue.Candidate)
    ensures c in Candidates(xs, scorer, kept) <==> exists p :: p in kept && CandidateAt(xs, scorer, p) == c
  {
    var all := Candidates(xs, scorer, kept);
    if c in all {
      var k :| 0 <= k < |all| && all[k] == c;
      assert kept[k] in kept;
    }
    if p :| p in kept && CandidateAt(xs, scorer, p) == c {
      var k :| 0 <= k < |kept| && kept[k] == p;
      assert all[k] == c;
    }
  }

  lemma SamePairSameIndices(xs: seq<Population>, scorer: Scorer, p: (nat, nat), q: (nat, nat))
    requires DistinctPopulations(xs) && NamesPairs(scorer, IdSet(xs)) && p.0 < p.1 < |xs| && q.0 < q.1 < |xs|
    requires CandidateAt(xs, scorer, p).pair == CandidateAt(xs, scorer, q).pair
    ensures p == q
  {
    var a, b, c, d := xs[p.0].id, xs[p.1].id, xs[q.0].id, xs[q.1].id;
    assert xs[p.0] in xs && xs[p.1] in xs && xs[q.0] in xs && xs[q.1] in xs;
    SameIds(a, b, c, d);
  }

  /** Every pair is in the pool at most once. */
  lemma PoolPairsDistinct(xs: seq<Population>, pairs: seq<(Id, Id)>, scorer: Scorer, minimum: real)
    requires DistinctPopulations(xs) && NamesPairs(scorer, IdSet(xs))
    ensures Queue.Pool(PoolOf(xs, pairs, scorer, minimum))
  {
    var kept, pool := Kept(xs, pairs, scorer, minimum, IndexPairs(|xs|)), PoolOf(xs, pairs, scorer, minimum);
    IndexPairsFacts(|xs|);
    FilterDistinct(IndexPairs(|xs|), (p: (nat, nat)) => Pairs(xs, pairs, scorer, minimum, p));
    forall i, j | 0 <= i < j < |pool| ensures pool[i].pair != pool[j].pair {
      assert kept[i] in kept && kept[j] in kept;
      if pool[i].pair == pool[j].pair {
        SamePairSameIndices(xs, scorer, kept[i], kept[j]);
      }
    }
    forall c | c in pool ensures c.left != c.right {
      PoolHas(xs, pairs, scorer, minimum, c);
    }
  }
}
