/**
 The population frontier of a wide synthesis prompt: strongest correspondence evidence
 first, then the motifs in turn, then the sources in turn, then whatever is left.
 */
module Frontier {
  import opened Ordering
  import opened FrontierQueues

  datatype Evidence = Evidence(workId: Id, proposed: bool, confidence: real, populations: seq<Id>)

  // --- adding ids under a limit ----------------------------------------------------------------

  /** An id is added when it is allowed, new, and the limit is not reached. */
  function AddAll(allowed: set<Id>, stream: seq<Id>, selected: seq<Id>, limit: int): seq<Id> {
    if stream == [] then selected
    else
      var v := stream[0];
      AddAll(allowed, stream[1..], if v in allowed && v !in selected && |selected| < limit then selected + [v] else selected, limit)
  }

  /** A frontier under construction. */
  ghost predicate Partial(allowed: set<Id>, selected: seq<Id>, limit: int) {
    Distinct(selected) && (forall v :: v in selected ==> v in allowed) && (|selected| <= limit || selected == [])
  }

  lemma PartialMore(allowed: set<Id>, selected: seq<Id>, limit: int, v: Id)
    requires Partial(allowed, selected, limit) && v in allowed && v !in selected && |selected| < limit
    ensures Partial(allowed, selected + [v], limit)
  {
    DistinctMore(selected, v);
  }

  lemma PrefixHas(a: seq<Id>, b: seq<Id>, v: Id)
    requires a <= b && v in a
    ensures v in b
  {
    var i :| 0 <= i < |a| && a[i] == v;
    assert b[i] == v;
  }

  lemma {:induction false} AddAllFacts(allowed: set<Id>, stream: seq<Id>, selected: seq<Id>, limit: int)
    requires Partial(allowed, selected, limit)
    ensures Partial(allowed, AddAll(allowed, stream, selected, limit), limit)
    ensures selected <= AddAll(allowed, stream, selected, limit)
    ensures |AddAll(allowed, stream, selected, limit)| >= limit || forall v :: v in stream && v in allowed ==> v in AddAll(allowed, stream, selected, limit)
    decreases |stream|
  {
    if stream != [] {
      var v := stream[0];
      if v in allowed && v !in selected && |selected| < limit {
        PartialMore(allowed, selected, limit, v);
        AddAllFacts(allowed, stream[1..], selected + [v], limit);
      } else {
        AddAllFacts(allowed, stream[1..], selected, limit);
      }
      var r := AddAll(allowed, stream, selected, limit);
      assert stream == [v] + stream[1..];
      if v in allowed && |selected| < limit {
        PrefixHas(if v in selected then selected else selected + [v], r, v);
      }
    }
  }

  lemma {:induction false} FullStaysFull(allowed: set<Id>, stream: seq<Id>, selected: seq<Id>, limit: int)
    requires |selected| >= limit
    ensures AddAll(allowed, stream, selected, limit) == selected
    decreases |stream|
  {
    if stream != [] {
      FullStaysFull(allowed, stream[1..], selected, limit);
    }
  }

  lemma {:induction false} AddAllConcat(allowed: set<Id>, a: seq<Id>, b: seq<Id>, selected: seq<Id>, limit: int)
    ensures AddAll(allowed, a + b, selected, limit) == AddAll(allowed, b, AddAll(allowed, a, selected, limit), limit)
    decreases |a|
  {
    if a == [] {
      assert a + b == b;
    } else {
      assert (a + b)[1..] == a[1..] + b;
      var v := a[0];
      AddAllConcat(allowed, a[1..], b, if v in allowed && v !in selected && |selected| < limit then selected + [v] else selected, limit);
    }
  }

  /** One pass over a stream, stopped as soon as the limit is reached. */
  method AddUntilFull(allowed: set<Id>, stream: seq<Id>, selected: seq<Id>, limit: int) returns (r: seq<Id>)
    ensures r == AddAll(allowed, stream, selected, limit)
  {
    r := selected;
    for k := 0 to |stream|
      invariant AddAll(allowed, stream, selected, limit) == AddAll(allowed, stream[k..], r, limit)
    {
      if |r| >= limit {
        FullStaysFull(allowed, stream[k..], r, limit);
        return;
      }
      assert stream[k..][1..] == stream[k + 1..];
      if stream[k] in allowed && stream[k] !in r {
        r := r + [stream[k]];
      }
    }
  }

  // --- correspondence evidence --------------------------------------------------------------------

  predicate EvidenceBefore(x: Evidence, y: Evidence) {
    if x.proposed != y.proposed then x.proposed
    else if x.confidence != y.confidence then x.confidence > y.confidence
    else x.workId < y.workId
  }

  /** The populations of the ranked results, one after the other. */
  function Stream(results: seq<Evidence>): seq<Id> {
    if results == [] then [] else results[0].populations + Stream(results[1..])
  }

  function EvidenceBudget(maximum: int): int {
    if maximum <= 0 then 0 else if maximum / 2 > 1 then maximum / 2 else 1
  }

  method TakeEvidence(allowed: set<Id>, results: seq<Evidence>, budget: int) returns (selected: seq<Id>)
    ensures selected == AddAll(allowed, Stream(SortBy(results, EvidenceBefore)), [], budget)
  {
    var ranked := SortBy(results, EvidenceBefore);
    selected := [];
    for k := 0 to |ranked|
      invariant AddAll(allowed, Stream(ranked), [], budget) == AddAll(allowed, Stream(ranked[k..]), selected, budget)
    {
      assert ranked[k..][0] == ranked[k] && ranked[k..][1..] == ranked[k + 1..];
      AddAllConcat(allowed, ranked[k].populations, Stream(ranked[k + 1..]), selected, budget);
      selected := AddUntilFull(allowed, ranked[k].populations, selected, budget);
      if |selected| >= budget {
        FullStaysFull(allowed, Stream(ranked[k + 1..]), selected, budget);
        break;
      }
    }
  }

  // --- round robin ------------------------------------------------------------------------------------

  /** Every id of the queue is selected. */
  ghost predicate Spent(queue: seq<Id>, selected: seq<Id>) {
    forall v :: v in queue ==> v in selected
  }

  ghost predicate SpentBelow(queue: seq<Id>, n: nat, selected: seq<Id>) {
    forall i: nat :: i < n && i < |queue| ==> queue[i] in selected
  }

  /** `v` is the first id of the queue that is not selected yet. */
  ghost predicate FirstNew(queue: seq<Id>, selected: seq<Id>, v: Id) {
    exists j: nat :: FirstNewAt(queue, selected, v, j)
  }

  ghost predicate FirstNewAt(queue: seq<Id>, selected: seq<Id>, v: Id, j: nat) {
    j < |queue| && queue[j] == v && v !in selected && SpentBelow(queue, j, selected)
  }

  /** How many of the ids added so far queue `q` has given. */
  function GivenBy(owner: seq<nat>, q: nat): nat {
    if owner == [] then 0 else GivenBy(owner[..|owner| - 1], q) + (if owner[|owner| - 1] == q then 1 else 0)
  }

  lemma GivenMore(owner: seq<nat>, o: nat, q: nat)
    ensures GivenBy(owner + [o], q) == GivenBy(owner, q) + (if o == q then 1 else 0)
  {
    assert (owner + [o])[..|owner|] == owner;
  }

  /** Queue `p` is due before queue `q`: it has given less, or as much and stands earlier. */
  ghost predicate DueBefore(owner: seq<nat>, p: nat, q: nat) {
    GivenBy(owner, p) < GivenBy(owner, q) || (GivenBy(owner, p) == GivenBy(owner, q) && p < q)
  }

  /** Queue `q` gives `v`: its first new id, while every queue due before it is spent. */
  ghost predicate Turn(queues: seq<seq<Id>>, selected: seq<Id>, owner: seq<nat>, q: nat, v: Id) {
    && q < |queues| && FirstNew(queues[q], selected, v)
    && forall p: nat :: p < |queues| && DueBefore(owner, p, q) ==> Spent(queues[p], selected)
  }

  /** Every id added since `before` was given by its owner in that owner's turn. */
  ghost predicate InTurn(queues: seq<seq<Id>>, before: seq<Id>, selected: seq<Id>, owner: seq<nat>) {
    if owner == [] then selected == before
    else
      var n, m := |owner| - 1, |selected| - 1;
      |selected| > 0 && InTurn(queues, before, selected[..m], owner[..n]) && Turn(queues, selected[..m], owner[..n], owner[n], selected[m])
  }

  lemma InTurnMore(queues: seq<seq<Id>>, before: seq<Id>, selected: seq<Id>, owner: seq<nat>, q: nat, v: Id)
    requires InTurn(queues, before, selected, owner) && Turn(queues, selected, owner, q, v)
    ensures InTurn(queues, before, selected + [v], owner + [q])
  {
    assert (selected + [v])[..|selected|] == selected && (owner + [q])[..|owner|] == owner;
  }

  /** What the round robin does: ids given in turn until the frontier is full or every queue is spent. */
  ghost predicate RoundRobin(queues: seq<seq<Id>>, before: seq<Id>, selected: seq<Id>, maximum: int, owner: seq<nat>) {
    && InTurn(queues, before, selected, owner)
    && (owner == [] || |selected| <= maximum)
    && (|selected| >= maximum || forall q :: 0 <= q < |queues| ==> Spent(queues[q], selected))
  }

  // --- what taking turns means ------------------------------------------------------------------------

  /** The selection after the first `n` ids given. */
  ghost function After(before: seq<Id>, selected: seq<Id>, n: nat): seq<Id>
    requires |before| + n <= |selected|
  {
    selected[..|before| + n]
  }

  /** One owner for every id added, and every moment of the round robin is one itself. */
  lemma {:induction false} TurnsAt(queues: seq<seq<Id>>, before: seq<Id>, selected: seq<Id>, owner: seq<nat>, n: nat)
    requires InTurn(queues, before, selected, owner) && n <= |owner|
    ensures |selected| == |before| + |owner|
    ensures InTurn(queues, before, After(before, selected, n), owner[..n])
    ensures n < |owner| ==> Turn(queues, After(before, selected, n), owner[..n], owner[n], selected[|before| + n])
    decreases |owner|
  {
    if owner == [] {
      assert selected[..|before|] == selected;
    } else {
      var s, o := selected[..|selected| - 1], owner[..|owner| - 1];
      if n < |owner| {
        TurnsAt(queues, before, s, o, n);
        assert s[..|before| + n] == selected[..|before| + n] && o[..n] == owner[..n];
        if n == |o| {
          assert o[..n] == o && s[..|before| + n] == s;
        }
      } else {
        TurnsAt(queues, before, s, o, |o|);
        assert owner[..n] == owner && selected[..|before| + n] == selected;
      }
    }
  }

  /** Each id comes from its owner's queue, and was new. */
  lemma OwnersGive(queues: seq<seq<Id>>, before: seq<Id>, selected: seq<Id>, owner: seq<nat>, n: nat)
    requires InTurn(queues, before, selected, owner) && n < |owner|
    ensures |selected| == |before| + |owner| && before == selected[..|before|]
    ensures owner[n] < |queues| && selected[|before| + n] in queues[owner[n]] && selected[|before| + n] !in selected[..|before| + n]
  {
    TurnsAt(queues, before, selected, owner, n);
    TurnsAt(queues, before, selected, owner, 0);
    assert owner[..0] == [];
    var j: nat :| FirstNewAt(queues[owner[n]], After(before, selected, n), selected[|before| + n], j);
  }

  /**
   Nobody is served twice before everybody is served once: a queue that has fallen behind another,
   or level with a later one that is ahead by its turn, has nothing left to give.
   */
  lemma {:induction false} NoQueueIsStarved(queues: seq<seq<Id>>, before: seq<Id>, selected: seq<Id>, owner: seq<nat>, p: nat, q: nat)
    requires InTurn(queues, before, selected, owner) && p < |queues| && q < |queues|
    ensures GivenBy(owner, p) > GivenBy(owner, q) + (if p < q then 1 else 0) ==> Spent(queues[q], selected)
    decreases |owner|
  {
    if owner != [] {
      var n, m := |owner| - 1, |selected| - 1;
      NoQueueIsStarved(queues, before, selected[..m], owner[..n], p, q);
      assert forall v :: v in selected[..m] ==> v in selected;
    }
  }

  /** Once a queue has given in round `r + 1`, every queue has given in each of `r` rounds or is spent; at every moment. */
  lemma RoundsAreWhole(queues: seq<seq<Id>>, before: seq<Id>, selected: seq<Id>, owner: seq<nat>, n: nat, r: nat, p: nat, q: nat)
    requires InTurn(queues, before, selected, owner) && n <= |owner| && p < |queues| && q < |queues|
    requires GivenBy(owner[..n], p) > r
    ensures |selected| == |before| + |owner|
    ensures GivenBy(owner[..n], q) >= r || Spent(queues[q], selected[..|before| + n])
    ensures q <= p ==> GivenBy(owner[..n], q) > r || Spent(queues[q], selected[..|before| + n])
  {
    TurnsAt(queues, before, selected, owner, n);
    NoQueueIsStarved(queues, before, After(before, selected, n), owner[..n], p, q);
  }

  lemma {:induction false} RunsAgree(queues: seq<seq<Id>>, before: seq<Id>, a: seq<Id>, aOwner: seq<nat>, b: seq<Id>, bOwner: seq<nat>)
    requires InTurn(queues, before, a, aOwner) && InTurn(queues, before, b, bOwner) && |aOwner| == |bOwner|
    ensures a == b && aOwner == bOwner
    decreases |aOwner|
  {
    if aOwner != [] {
      var n, m, k := |aOwner| - 1, |a| - 1, |b| - 1;
      RunsAgree(queues, before, a[..m], aOwner[..n], b[..k], bOwner[..n]);
      NextTurnAgrees(queues, a[..m], aOwner[..n], aOwner[n], a[m], bOwner[n], b[k]);
      assert a == a[..m] + [a[m]] && b == b[..k] + [b[k]];
      assert aOwner == aOwner[..n] + [aOwner[n]] && bOwner == bOwner[..n] + [bOwner[n]];
    }
  }

  lemma BeforeTheFirst(queue: seq<Id>, selected: seq<Id>, v: Id, j: nat)
    requires FirstNewAt(queue, selected, v, j)
    ensures v in queue && forall k :: 0 <= k < j ==> queue[k] in selected
  {
  }

  lemma NotDueBefore(queues: seq<seq<Id>>, selected: seq<Id>, owner: seq<nat>, q: nat, v: Id, p: nat, u: Id)
    requires Turn(queues, selected, owner, q, v) && Turn(queues, selected, owner, p, u)
    ensures !DueBefore(owner, p, q)
  {
    var j: nat :| FirstNewAt(queues[p], selected, u, j);
    BeforeTheFirst(queues[p], selected, u, j);
  }

  lemma NextTurnAgrees(queues: seq<seq<Id>>, selected: seq<Id>, owner: seq<nat>, q: nat, v: Id, p: nat, u: Id)
    requires Turn(queues, selected, owner, q, v) && Turn(queues, selected, owner, p, u)
    ensures q == p && v == u
  {
    NotDueBefore(queues, selected, owner, q, v, p, u);
    NotDueBefore(queues, selected, owner, p, u, q, v);
    var i: nat :| FirstNewAt(queues[q], selected, v, i);
    var j: nat :| FirstNewAt(queues[p], selected, u, j);
    BeforeTheFirst(queues[q], selected, v, i);
    BeforeTheFirst(queues[p], selected, u, j);
  }

  /** The round robin is a function of its queues: who gives what, and in which order. */
  lemma RoundRobinIsDetermined(
      queues: seq<seq<Id>>, before: seq<Id>, maximum: int, a: seq<Id>, aOwner: seq<nat>, b: seq<Id>, bOwner: seq<nat>)
    requires RoundRobin(queues, before, a, maximum, aOwner) && RoundRobin(queues, before, b, maximum, bOwner)
    ensures a == b && aOwner == bOwner
  {
    if |aOwner| < |bOwner| {
      StoppedEarlier(queues, before, maximum, a, aOwner, b, bOwner);
    } else if |bOwner| < |aOwner| {
      StoppedEarlier(queues, before, maximum, b, bOwner, a, aOwner);
    }
    RunsAgree(queues, before, a, aOwner, b, bOwner);
  }

  lemma StoppedEarlier(
      queues: seq<seq<Id>>, before: seq<Id>, maximum: int, a: seq<Id>, aOwner: seq<nat>, b: seq<Id>, bOwner: seq<nat>)
    requires RoundRobin(queues, before, a, maximum, aOwner) && RoundRobin(queues, before, b, maximum, bOwner)
    ensures |bOwner| <= |aOwner|
  {
    TurnsAt(queues, before, a, aOwner, |aOwner|);
    if |aOwner| < |bOwner| {
      var n := |aOwner|;
      TurnsAt(queues, before, b, bOwner, n);
      RunsAgree(queues, before, a, aOwner, After(before, b, n), bOwner[..n]);
      OwnersGive(queues, before, b, bOwner, n);
    }
  }

  // --- the loops -----------------------------------------------------------------------------------------

  /** `rest` is the end of the queue. */
  ghost predicate Tail(queue: seq<Id>, rest: seq<Id>) {
    |rest| <= |queue| && forall i: nat :: i < |rest| ==> rest[i] == queue[|queue| - |rest| + i]
  }

  /** The queue without the already selected ids at its head. */
  function SkipSelected(queue: seq<Id>, selected: seq<Id>): (rest: seq<Id>)
    ensures Tail(queue, rest) && SpentBelow(queue, |queue| - |rest|, selected)
    ensures rest != [] ==> rest[0] !in selected
  {
    if queue != [] && queue[0] in selected then
      var rest := SkipSelected(queue[1..], selected);
      SkippedOne(queue, rest, selected);
      rest
    else queue
  }

  lemma SkippedOne(queue: seq<Id>, rest: seq<Id>, selected: seq<Id>)
    requires queue != [] && queue[0] in selected && Tail(queue[1..], rest) && SpentBelow(queue[1..], |queue| - 1 - |rest|, selected)
    ensures Tail(queue, rest) && SpentBelow(queue, |queue| - |rest|, selected)
  {
    forall i: nat | i < |queue| - |rest| ensures queue[i] in selected {
      assert i > 0 ==> queue[i] == queue[1..][i - 1];
    }
  }

  function TotalLength(queues: seq<seq<Id>>): nat {
    if queues == [] then 0 else |queues[0]| + TotalLength(queues[1..])
  }

  lemma {:induction false} ShorterQueue(queues: seq<seq<Id>>, k: nat, queue: seq<Id>)
    requires k < |queues| && |queue| <= |queues[k]|
    ensures TotalLength(queues[k := queue]) == TotalLength(queues) - |queues[k]| + |queue|
  {
    if k > 0 {
      assert queues[k := queue][1..] == queues[1..][k - 1 := queue];
      ShorterQueue(queues[1..], k - 1, queue);
    } else {
      assert queues[0 := queue][1..] == queues[1..];
    }
  }

  /**
   What has happened to one queue: what is left of it is its end, everything popped is selected,
   and it has given one id in each round it took part in unless it ran out.
   */
  ghost predicate Served(original: seq<Id>, left: seq<Id>, selected: seq<Id>, given: nat, rounds: nat) {
    && Tail(original, left) && SpentBelow(original, |original| - |left|, selected)
    && given <= rounds && (given == rounds || left == [])
  }

  /** How many rounds queue `q` has taken part in when the first `k` queues have had their turn in the next. */
  function Rounds(q: nat, rounds: nat, k: nat): nat {
    if q < k then rounds + 1 else rounds
  }

  /** A round in progress: the first `k` queues have had their turn in round `rounds + 1`. */
  ghost predicate InRound(original: seq<seq<Id>>, left: seq<seq<Id>>, selected: seq<Id>, owner: seq<nat>, rounds: nat, k: nat) {
    && |original| == |left| && k <= |left|
    && (forall q: nat :: q < |left| ==> Served(original[q], left[q], selected, GivenBy(owner, q), Rounds(q, rounds, k)))
  }

  /** A queue without a new id drops out of the round, spent. */
  lemma PassTurn(original: seq<seq<Id>>, left: seq<seq<Id>>, selected: seq<Id>, owner: seq<nat>, rounds: nat, k: nat)
    requires InRound(original, left, selected, owner, rounds, k) && k < |left| && SkipSelected(left[k], selected) == []
    ensures InRound(original, left[k := []], selected, owner, rounds, k + 1)
  {
    assert Served(original[k], left[k], selected, GivenBy(owner, k), rounds);
    Popped(original[k], left[k], [], selected);
    forall q: nat | q < |left|
      ensures Served(original[q], left[k := []][q], selected, GivenBy(owner, q), Rounds(q, rounds, k + 1))
    {
      assert Served(original[q], left[q], selected, GivenBy(owner, q), Rounds(q, rounds, k));
    }
  }

  /** What one queue gives in its turn, and what that leaves of it. */
  lemma ServedTurn(original: seq<Id>, left: seq<Id>, selected: seq<Id>, given: nat, rounds: nat, rest: seq<Id>)
    requires Served(original, left, selected, given, rounds) && rest != [] && rest[0] !in selected
    requires Tail(left, rest) && SpentBelow(left, |left| - |rest|, selected)
    ensures FirstNew(original, selected, rest[0])
    ensures Served(original, rest[1..], selected + [rest[0]], given + 1, rounds + 1)
  {
    Popped(original, left, rest, selected);
    assert FirstNewAt(original, selected, rest[0], |original| - |rest|);
  }

  /** A queue's turn: it gives its first new id. */
  lemma TakeTurn(original: seq<seq<Id>>, left: seq<seq<Id>>, selected: seq<Id>, owner: seq<nat>, rounds: nat, k: nat, rest: seq<Id>)
    requires InRound(original, left, selected, owner, rounds, k) && k < |left| && rest == SkipSelected(left[k], selected) != []
    ensures Turn(original, selected, owner, k, rest[0])
    ensures InRound(original, left[k := rest[1..]], selected + [rest[0]], owner + [k], rounds, k + 1)
  {
    assert Served(original[k], left[k], selected, GivenBy(owner, k), Rounds(k, rounds, k));
    ServedTurn(original[k], left[k], selected, GivenBy(owner, k), rounds, rest);
    TurnIsDue(original, left, selected, owner, rounds, k);
    var v, now := rest[0], left[k := rest[1..]];
    forall q: nat | q < |left|
      ensures Served(original[q], now[q], selected + [v], GivenBy(owner + [k], q), Rounds(q, rounds, k + 1))
    {
      GivenMore(owner, k, q);
      if q != k {
        assert Served(original[q], left[q], selected, GivenBy(owner, q), Rounds(q, rounds, k));
        ServedStays(original[q], left[q], selected, v, GivenBy(owner, q), Rounds(q, rounds, k));
      }
    }
  }

  lemma ServedStays(original: seq<Id>, left: seq<Id>, selected: seq<Id>, v: Id, given: nat, rounds: nat)
    requires Served(original, left, selected, given, rounds)
    ensures Served(original, left, selected + [v], given, rounds)
  {
  }

  /** Popping selected ids leaves only selected ids behind. */
  lemma Popped(original: seq<Id>, left: seq<Id>, rest: seq<Id>, selected: seq<Id>)
    requires Tail(original, left) && SpentBelow(original, |original| - |left|, selected)
    requires Tail(left, rest) && SpentBelow(left, |left| - |rest|, selected)
    ensures Tail(original, rest) && SpentBelow(original, |original| - |rest|, selected)
  {
    var n := |original| - |left|;
    forall i: nat | i < |original| - |rest| ensures original[i] in selected {
      assert i >= n ==> original[i] == left[i - n];
    }
  }

  /** In the turn of queue `k` every queue due before it has run out. */
  lemma TurnIsDue(original: seq<seq<Id>>, left: seq<seq<Id>>, selected: seq<Id>, owner: seq<nat>, rounds: nat, k: nat)
    requires InRound(original, left, selected, owner, rounds, k) && k < |left| && left[k] != []
    ensures forall p: nat :: p < |original| && DueBefore(owner, p, k) ==> Spent(original[p], selected)
  {
    forall p: nat | p < |original| && DueBefore(owner, p, k) ensures Spent(original[p], selected) {
      assert Served(original[p], left[p], selected, GivenBy(owner, p), Rounds(p, rounds, k));
      assert Served(original[k], left[k], selected, GivenBy(owner, k), rounds);
      assert left[p] == [];
    }
  }

  lemma NextRound(original: seq<seq<Id>>, left: seq<seq<Id>>, selected: seq<Id>, owner: seq<nat>, rounds: nat)
    requires InRound(original, left, selected, owner, rounds, |left|)
    ensures InRound(original, left, selected, owner, rounds + 1, 0)
  {
    forall q: nat | q < |left| ensures Served(original[q], left[q], selected, GivenBy(owner, q), rounds + 1) {
      assert Served(original[q], left[q], selected, GivenBy(owner, q), Rounds(q, rounds, |left|));
    }
  }

  /** The state of the round robin between two turns. */
  ghost predicate Serving(
      allowed: set<Id>, original: seq<seq<Id>>, left: seq<seq<Id>>, before: seq<Id>, selected: seq<Id>, maximum: int,
      owner: seq<nat>, rounds: nat, k: nat)
  {
    && Partial(allowed, selected, maximum) && InTurn(original, before, selected, owner) && (owner == [] || |selected| <= maximum)
    && InRound(original, left, selected, owner, rounds, k)
  }

  /** One queue's turn in a round. */
  method ServeOne(allowed: set<Id>, ghost original: seq<seq<Id>>, queues: seq<seq<Id>>, ghost before: seq<Id>, start: seq<Id>,
                  maximum: int, ghost startOwner: seq<nat>, ghost rounds: nat, k: nat)
    returns (left: seq<seq<Id>>, selected: seq<Id>, gave: bool, ghost owner: seq<nat>)
    requires Serving(allowed, original, queues, before, start, maximum, startOwner, rounds, k) && k < |queues| && |start| < maximum
    requires forall q, v :: 0 <= q < |original| && v in original[q] ==> v in allowed
    ensures Serving(allowed, original, left, before, selected, maximum, owner, rounds, k + 1)
    ensures |left| == |queues| && forall q :: 0 <= q < |left| && q != k ==> left[q] == queues[q]
    ensures if gave then TotalLength(left) < TotalLength(queues) else TotalLength(left) <= TotalLength(queues) && left[k] == [] && selected == start
  {
    var rest := SkipSelected(queues[k], start);
    ShorterQueue(queues, k, if rest == [] then [] else rest[1..]);
    if rest == [] {
      PassTurn(original, queues, start, startOwner, rounds, k);
      return queues[k := []], start, false, startOwner;
    }
    TakeTurn(original, queues, start, startOwner, rounds, k, rest);
    InTurnMore(original, before, start, startOwner, k, rest[0]);
    PartialTurn(allowed, original, start, startOwner, maximum, k, rest[0]);
    return queues[k := rest[1..]], start + [rest[0]], true, startOwner + [k];
  }

  lemma PartialTurn(allowed: set<Id>, queues: seq<seq<Id>>, selected: seq<Id>, owner: seq<nat>, maximum: int, q: nat, v: Id)
    requires Partial(allowed, selected, maximum) && |selected| < maximum && Turn(queues, selected, owner, q, v)
    requires forall q, v :: 0 <= q < |queues| && v in queues[q] ==> v in allowed
    ensures Partial(allowed, selected + [v], maximum)
  {
    var j: nat :| FirstNewAt(queues[q], selected, v, j);
    PartialMore(allowed, selected, maximum, v);
  }

  /** One round over all queues. */
  method Round(allowed: set<Id>, ghost original: seq<seq<Id>>, queues: seq<seq<Id>>, ghost before: seq<Id>, start: seq<Id>,
               maximum: int, ghost startOwner: seq<nat>, ghost rounds: nat)
    returns (left: seq<seq<Id>>, selected: seq<Id>, progressed: bool, ghost owner: seq<nat>, ghost k: nat)
    requires Serving(allowed, original, queues, before, start, maximum, startOwner, rounds, 0) && |start| < maximum
    requires forall q, v :: 0 <= q < |original| && v in original[q] ==> v in allowed
    ensures Serving(allowed, original, left, before, selected, maximum, owner, rounds, k)
    ensures k == |left| || |selected| >= maximum
    ensures progressed ==> TotalLength(left) < TotalLength(queues)
    ensures !progressed ==> k == |left| && forall q :: 0 <= q < |left| ==> left[q] == []
  {
    left, selected, progressed, owner, k := queues, start, false, startOwner, 0;
    for i := 0 to |queues|
      invariant |left| == |queues| && k == i && |selected| < maximum
      invariant Serving(allowed, original, left, before, selected, maximum, owner, rounds, k)
      invariant TotalLength(left) <= TotalLength(queues) && (progressed ==> TotalLength(left) < TotalLength(queues))
      invariant !progressed ==> forall q :: 0 <= q < i ==> left[q] == []
    {
      var gave;
      left, selected, gave, owner := ServeOne(allowed, original, left, before, selected, maximum, owner, rounds, i);
      k := i + 1;
      progressed := progressed || gave;
      if |selected| >= maximum {
        break;
      }
    }
  }

  /** Rounds until the frontier is full or every queue has run out. */
  method TakeInTurn(allowed: set<Id>, queues: seq<seq<Id>>, before: seq<Id>, maximum: int)
    returns (selected: seq<Id>, ghost owner: seq<nat>)
    requires Partial(allowed, before, maximum)
    requires forall q, v :: 0 <= q < |queues| && v in queues[q] ==> v in allowed
    ensures Partial(allowed, selected, maximum) && RoundRobin(queues, before, selected, maximum, owner)
  {
    var left := queues;
    selected, owner := before, [];
    ghost var k: nat, rounds: nat := 0, 0;
    NobodyServed(queues, before);
    while |left| > 0 && |selected| < maximum
      invariant Serving(allowed, queues, left, before, selected, maximum, owner, rounds, k)
      invariant k == 0 || |selected| >= maximum
      decreases TotalLength(left)
    {
      var progressed;
      left, selected, progressed, owner, k := Round(allowed, queues, left, before, selected, maximum, owner, rounds);
      if !progressed {
        AllSpent(queues, left, selected, owner, rounds, k);
        break;
      }
      if |selected| < maximum {
        NextRound(queues, left, selected, owner, rounds);
        rounds, k := rounds + 1, 0;
      }
    }
  }

  lemma NobodyServed(queues: seq<seq<Id>>, before: seq<Id>)
    ensures InRound(queues, queues, before, [], 0, 0) && InTurn(queues, before, before, [])
  {
    forall q: nat | q < |queues| ensures Served(queues[q], queues[q], before, GivenBy([], q), 0) {
    }
  }

  lemma AllSpent(queues: seq<seq<Id>>, left: seq<seq<Id>>, selected: seq<Id>, owner: seq<nat>, rounds: nat, k: nat)
    requires InRound(queues, left, selected, owner, rounds, k) && forall q :: 0 <= q < |left| ==> left[q] == []
    ensures forall q :: 0 <= q < |queues| ==> Spent(queues[q], selected)
  {
    forall q: nat | q < |queues| ensures Spent(queues[q], selected) {
      assert Served(queues[q], left[q], selected, GivenBy(owner, q), Rounds(q, rounds, k));
    }
  }

  // --- the frontier ------------------------------------------------------------------------------------------

  /** The stages a frontier went through, with the queue that gave each id of the two round robins. */
  datatype Stages = Stages(
    evidence: seq<Id>, afterMotifs: seq<Id>, motifOwner: seq<nat>, afterSources: seq<Id>, sourceOwner: seq<nat>)

  ghost predicate StagesOf(
      allowed: set<Id>, results: seq<Evidence>, sources: seq<SourceInput>, fieldName: Id -> Id, maximum: int, st: Stages)
  {
    && st.evidence == AddAll(allowed, Stream(SortBy(results, EvidenceBefore)), [], EvidenceBudget(maximum))
    && |st.evidence| <= EvidenceBudget(maximum)
    && RoundRobin(MotifQueues(allowed, sources, fieldName), st.evidence, st.afterMotifs, maximum, st.motifOwner)
    && RoundRobin(SourceQueues(allowed, sources, st.afterMotifs), st.afterMotifs, st.afterSources, maximum, st.sourceOwner)
  }

  // --- what the stages take, told from results, motifs and sources --------------------------------------------

  /** Proposed before not proposed, then more confident, then the lesser work id. */
  ghost predicate Stronger(x: Evidence, y: Evidence) {
    || (x.proposed && !y.proposed)
    || (x.proposed == y.proposed && (x.confidence > y.confidence || (x.confidence == y.confidence && x.workId < y.workId)))
  }

  /** The strongest evidence goes in first, until half of the frontier is taken or none is left. */
  ghost predicate StrongestEvidence(allowed: set<Id>, results: seq<Evidence>, maximum: int, taken: seq<Id>) {
    && (maximum >= 2 ==> 2 * |taken| <= maximum) && (taken != [] ==> maximum >= 1 && (|taken| == 1 || maximum >= 2))
    && (forall v :: v in taken ==> v in allowed && exists y :: y in results && v in y.populations)
    && (forall y, v :: y in results && v in y.populations && v in allowed && v !in taken ==> maximum <= 2 * |taken| + 1 && (maximum >= 1 ==> taken != []))
    && (forall v, x, u :: v in taken && x in results && u in x.populations && u in allowed && Outdone(results, v, x) ==> u in taken)
  }

  /** Every result that names `v` is weaker than `x`. */
  ghost predicate Outdone(results: seq<Evidence>, v: Id, x: Evidence) {
    forall y :: y in results && v in y.populations ==> Stronger(x, y)
  }

  /** The motifs' populations take turns by motif, the sources' by source; what is left is filled in ascending order. */
  ghost predicate MotifsInTurn(allowed: set<Id>, sources: seq<SourceInput>, fieldName: Id -> Id, maximum: int, st: Stages) {
    exists queues, places ::
      QueuesAt(allowed, sources, fieldName, queues, places) && RoundRobin(queues, st.evidence, st.afterMotifs, maximum, st.motifOwner)
  }

  /** A queue for every source: its allowed populations that no motif took, in ascending order. */
  ghost predicate SourcesQueued(allowed: set<Id>, sources: seq<SourceInput>, selected: seq<Id>, queues: seq<seq<Id>>) {
    && |queues| == |sources|
    && (forall k, i, j :: 0 <= k < |queues| && 0 <= i < j < |queues[k]| ==> queues[k][i] <= queues[k][j])
    && (forall k, v :: 0 <= k < |queues| ==> (v in queues[k] <==> v in sources[k].populations && v in allowed && v !in selected))
  }

  ghost predicate SourcesInTurn(allowed: set<Id>, sources: seq<SourceInput>, maximum: int, st: Stages) {
    exists queues ::
      SourcesQueued(allowed, sources, st.afterMotifs, queues) && RoundRobin(queues, st.afterMotifs, st.afterSources, maximum, st.sourceOwner)
  }

  /** Unless the frontier is full before, each stage takes all that its motifs and sources stand for. */
  ghost predicate NothingPassedOver(allowed: set<Id>, sources: seq<SourceInput>, fieldName: Id -> Id, maximum: int, st: Stages) {
    && (forall s: nat, m, v :: s < |sources| && m in sources[s].motifs && NamedBy(allowed, sources[s], fieldName, m.fields, v) ==>
          v in st.afterMotifs || |st.afterMotifs| >= maximum)
    && (forall s: nat, v :: s < |sources| && v in sources[s].populations && v in allowed ==>
          v in st.afterSources || |st.afterSources| >= maximum)
  }

  /** The frontier holds all that was taken, and the least of the rest. */
  ghost predicate FilledFromBelow(allowed: set<Id>, st: Stages, frontier: seq<Id>) {
    && (forall v :: v in st.afterSources ==> v in frontier)
    && (forall u, v :: v in frontier && v !in st.afterSources && u in allowed && u < v ==> u in frontier)
  }

  lemma {:induction false} TakenInOrder(allowed: set<Id>, stream: seq<Id>, selected: seq<Id>, limit: int, v: Id) returns (p: nat)
    requires v in AddAll(allowed, stream, selected, limit) && v !in selected
    ensures p < |stream| && stream[p] == v && v in allowed
    ensures forall q :: 0 <= q < p && stream[q] in allowed ==> stream[q] in AddAll(allowed, stream, selected, limit)
    decreases |stream|
  {
    var head := stream[0];
    var next := if head in allowed && head !in selected && |selected| < limit then selected + [head] else selected;
    if |selected| >= limit {
      FullStaysFull(allowed, stream, selected, limit);
      assert false;
    } else if v in next {
      p := 0;
    } else {
      p := TakenInOrder(allowed, stream[1..], next, limit, v);
      p := p + 1;
      if head in allowed {
        AddAllKeeps(allowed, stream[1..], next, limit, head);
      }
      forall q | 0 <= q < p && stream[q] in allowed ensures stream[q] in AddAll(allowed, stream, selected, limit) {
        assert q > 0 ==> stream[q] == stream[1..][q - 1];
      }
    }
  }

  lemma {:induction false} AddAllKeeps(allowed: set<Id>, stream: seq<Id>, selected: seq<Id>, limit: int, v: Id)
    requires v in selected
    ensures v in AddAll(allowed, stream, selected, limit)
    decreases |stream|
  {
    if stream != [] {
      var head := stream[0];
      AddAllKeeps(allowed, stream[1..], if head in allowed && head !in selected && |selected| < limit then selected + [head] else selected, limit, v);
    }
  }

  lemma {:induction false} StreamConcat(a: seq<Evidence>, b: seq<Evidence>)
    ensures Stream(a + b) == Stream(a) + Stream(b)
    decreases |a|
  {
    if a == [] {
      assert a + b == b;
    } else {
      assert (a + b)[0] == a[0] && (a + b)[1..] == a[1..] + b;
      StreamConcat(a[1..], b);
    }
  }

  /** Which result a position of the stream belongs to. */
  lemma {:induction false} ResultAt(results: seq<Evidence>, p: nat) returns (k: nat)
    requires p < |Stream(results)|
    ensures k < |results| && |Stream(results[..k])| <= p && Stream(results)[p] in results[k].populations
    decreases |results|
  {
    if p < |results[0].populations| {
      k := 0;
    } else {
      k := ResultAt(results[1..], p - |results[0].populations|);
      k := k + 1;
      assert results[..k][0] == results[0] && results[..k][1..] == results[1..][..k - 1];
    }
  }

  /** The populations of a result stand in the stream before those of any later one. */
  lemma EarlierInStream(results: seq<Evidence>, j: nat, k: nat, u: Id) returns (q: nat)
    requires j < k < |results| && u in results[j].populations
    ensures q < |Stream(results[..k])| <= |Stream(results)| && Stream(results)[q] == u
  {
    assert results == results[..k] + results[k..] && results[..k] == results[..j] + results[j..k];
    StreamConcat(results[..k], results[k..]);
    StreamConcat(results[..j], results[j..k]);
    var i :| 0 <= i < |results[j].populations| && results[j].populations[i] == u;
    assert results[j..k][0] == results[j];
    q := |Stream(results[..j])| + i;
  }

  lemma {:induction false} InStream(results: seq<Evidence>, v: Id)
    ensures v in Stream(results) <==> exists y :: y in results && v in y.populations
    decreases |results|
  {
    if results != [] {
      InStream(results[1..], v);
      assert results == [results[0]] + results[1..];
    }
  }

  lemma StrongerFirst(allowed: set<Id>, results: seq<Evidence>, budget: int, taken: seq<Id>, v: Id, x: Evidence, u: Id)
    requires taken == AddAll(allowed, Stream(SortBy(results, EvidenceBefore)), [], budget)
    requires v in taken && x in results && u in x.populations && u in allowed
    requires Outdone(results, v, x)
    ensures u in taken
  {
    var ranked := SortBy(results, EvidenceBefore);
    SortKeeps(results, EvidenceBefore);
    assert StrictWeak(EvidenceBefore);
    SortInOrder(results, EvidenceBefore);
    var p := TakenInOrder(allowed, Stream(ranked), [], budget, v);
    var k := ResultAt(ranked, p);
    assert ranked[k] in results && Stronger(x, ranked[k]);
    var j: nat :| j < |ranked| && ranked[j] == x;
    PrecedingIsEarlier(ranked, EvidenceBefore, k, j);
    var q := EarlierInStream(ranked, j, k, u);
  }

  lemma EvidenceIsStrongest(allowed: set<Id>, results: seq<Evidence>, maximum: int, taken: seq<Id>)
    requires taken == AddAll(allowed, Stream(SortBy(results, EvidenceBefore)), [], EvidenceBudget(maximum))
    ensures StrongestEvidence(allowed, results, maximum, taken)
  {
    var ranked, budget := SortBy(results, EvidenceBefore), EvidenceBudget(maximum);
    SortKeeps(results, EvidenceBefore);
    AddAllFacts(allowed, Stream(ranked), [], budget);
    forall v | v in taken ensures v in allowed && exists y :: y in results && v in y.populations {
      var p := TakenInOrder(allowed, Stream(ranked), [], budget, v);
      InStream(ranked, v);
    }
    forall y, v | y in results && v in y.populations && v in allowed && v !in taken ensures |taken| >= budget {
      InStream(ranked, v);
    }
    forall v, x, u | v in taken && x in results && u in x.populations && u in allowed && Outdone(results, v, x) ensures u in taken
    {
      StrongerFirst(allowed, results, budget, taken, v, x, u);
    }
  }

  lemma MotifStage(allowed: set<Id>, results: seq<Evidence>, sources: seq<SourceInput>, fieldName: Id -> Id, maximum: int, st: Stages)
    requires StagesOf(allowed, results, sources, fieldName, maximum, st)
    ensures MotifsInTurn(allowed, sources, fieldName, maximum, st)
    ensures forall s: nat, m, v :: s < |sources| && m in sources[s].motifs && NamedBy(allowed, sources[s], fieldName, m.fields, v) ==>
      v in st.afterMotifs || |st.afterMotifs| >= maximum
  {
    var queues := MotifQueues(allowed, sources, fieldName);
    var places := MotifQueuesPlaced(allowed, sources, fieldName);
    forall s: nat, m, v | s < |sources| && m in sources[s].motifs && NamedBy(allowed, sources[s], fieldName, m.fields, v) && |st.afterMotifs| < maximum
      ensures v in st.afterMotifs
    {
      var q := QueueOfMotif(allowed, sources, fieldName, queues, places, s, m, v);
      assert Spent(queues[q], st.afterMotifs);
    }
  }

  lemma QueueOfMotif(
      allowed: set<Id>, sources: seq<SourceInput>, fieldName: Id -> Id, queues: seq<seq<Id>>, places: seq<Place>, s: nat, m: Motif, v: Id)
    returns (q: nat)
    requires QueuesAt(allowed, sources, fieldName, queues, places)
    requires s < |sources| && m in sources[s].motifs && NamedBy(allowed, sources[s], fieldName, m.fields, v)
    ensures q < |queues| && v in queues[q]
  {
    var i: nat :| i < |sources[s].motifs| && sources[s].motifs[i] == m;
    assert Stands(allowed, sources, fieldName, Place(s, i));
    q :| 0 <= q < |places| && places[q] == Place(s, i);
    assert QueueAt(allowed, sources, fieldName, queues[q], places[q]);
  }

  lemma SourceStage(allowed: set<Id>, results: seq<Evidence>, sources: seq<SourceInput>, fieldName: Id -> Id, maximum: int, st: Stages)
    requires StagesOf(allowed, results, sources, fieldName, maximum, st)
    ensures SourcesInTurn(allowed, sources, maximum, st)
    ensures forall s: nat, v :: s < |sources| && v in sources[s].populations && v in allowed ==>
      v in st.afterSources || |st.afterSources| >= maximum
  {
    var queues := SourceQueues(allowed, sources, st.afterMotifs);
    SourceQueuesAre(allowed, sources, st.afterMotifs);
    forall s: nat, v | s < |sources| && v in sources[s].populations && v in allowed && |st.afterSources| < maximum
      ensures v in st.afterSources
    {
      if v in st.afterMotifs {
        TurnsAt(queues, st.afterMotifs, st.afterSources, st.sourceOwner, 0);
        assert st.sourceOwner[..0] == [] && After(st.afterMotifs, st.afterSources, 0) == st.afterMotifs;
      } else {
        assert v in queues[s] && Spent(queues[s], st.afterSources);
      }
    }
  }

  lemma SourceQueuesAre(allowed: set<Id>, sources: seq<SourceInput>, selected: seq<Id>)
    ensures SourcesQueued(allowed, sources, selected, SourceQueues(allowed, sources, selected))
  {
    forall k | 0 <= k < |sources|
      ensures forall v :: v in SourceQueues(allowed, sources, selected)[k] <==> v in sources[k].populations && v in allowed && v !in selected
      ensures InOrder(SourceQueues(allowed, sources, selected)[k], Ascends)
    {
      assert StrictWeak(Ascends);
      SortKeeps(Remaining(allowed, sources[k].populations, selected), Ascends);
      SortInOrder(Remaining(allowed, sources[k].populations, selected), Ascends);
    }
  }

  lemma FillStage(allowed: set<Id>, st: Stages, maximum: int, frontier: seq<Id>)
    requires Elements(frontier) == Elements(AddAll(allowed, SortedSet(allowed), st.afterSources, maximum))
    ensures FilledFromBelow(allowed, st, frontier)
  {
    var sorted := SortedSet(allowed);
    var filled := AddAll(allowed, sorted, st.afterSources, maximum);
    assert forall v :: v in frontier <==> v in Elements(frontier);
    assert forall v :: v in filled <==> v in Elements(filled);
    forall v | v in st.afterSources ensures v in frontier {
      AddAllKeeps(allowed, sorted, st.afterSources, maximum, v);
    }
    forall u, v | v in frontier && v !in st.afterSources && u in allowed && u < v ensures u in frontier {
      LesserIsTaken(allowed, sorted, st.afterSources, maximum, u, v);
    }
  }

  lemma LesserIsTaken(allowed: set<Id>, sorted: seq<Id>, selected: seq<Id>, limit: int, u: Id, v: Id)
    requires Ascending(sorted) && Elements(sorted) == allowed && u in allowed && u < v
    requires v in AddAll(allowed, sorted, selected, limit) && v !in selected
    ensures u in AddAll(allowed, sorted, selected, limit)
  {
    var p := TakenInOrder(allowed, sorted, selected, limit, v);
    assert u in Elements(sorted);
    var q :| 0 <= q < |sorted| && sorted[q] == u;
    assert q < p;
  }

  method Choose(populations: seq<Id>, results: seq<Evidence>, sources: seq<SourceInput>, fieldName: Id -> Id, maximum: int)
    returns (frontier: seq<Id>, ghost st: Stages)
    ensures Ascending(frontier) && (forall v :: v in frontier ==> v in populations)
    ensures |frontier| == if |Elements(populations)| <= maximum then |Elements(populations)| else if maximum >= 0 then maximum else 0
    ensures |Elements(populations)| > maximum ==>
      && StagesOf(Elements(populations), results, sources, fieldName, maximum, st)
      && Elements(frontier) == Elements(AddAll(Elements(populations), SortedSet(Elements(populations)), st.afterSources, maximum))
    ensures |Elements(populations)| > maximum ==>
      && StrongestEvidence(Elements(populations), results, maximum, st.evidence)
      && MotifsInTurn(Elements(populations), sources, fieldName, maximum, st) && SourcesInTurn(Elements(populations), sources, maximum, st)
      && NothingPassedOver(Elements(populations), sources, fieldName, maximum, st) && FilledFromBelow(Elements(populations), st, frontier)
  {
    var allowed := Elements(populations);
    var sorted := SortedSet(allowed);
    st := Stages([], [], [], [], []);
    if |sorted| <= maximum {
      assert forall v :: v in sorted ==> v in Elements(sorted);
      return sorted, st;
    }
    var evidence := TakeEvidence(allowed, results, EvidenceBudget(maximum));
    AddAllFacts(allowed, Stream(SortBy(results, EvidenceBefore)), [], EvidenceBudget(maximum));
    MotifQueuesAllowed(allowed, sources, fieldName);
    var afterMotifs, motifOwner := TakeInTurn(allowed, MotifQueues(allowed, sources, fieldName), evidence, maximum);
    SourceQueuesAllowed(allowed, sources, afterMotifs);
    var afterSources, sourceOwner := TakeInTurn(allowed, SourceQueues(allowed, sources, afterMotifs), afterMotifs, maximum);
    var filled := AddUntilFull(allowed, sorted, afterSources, maximum);
    FilledSize(allowed, sorted, afterSources, maximum);
    st := Stages(evidence, afterMotifs, motifOwner, afterSources, sourceOwner);
    frontier := SortedSet(Elements(filled));
    DistinctSize(filled);
    assert forall v :: v in frontier ==> v in Elements(filled);
    EvidenceIsStrongest(allowed, results, maximum, evidence);
    MotifStage(allowed, results, sources, fieldName, maximum, st);
    SourceStage(allowed, results, sources, fieldName, maximum, st);
    FillStage(allowed, st, maximum, frontier);
  }

  lemma FilledSize(allowed: set<Id>, sorted: seq<Id>, selected: seq<Id>, maximum: int)
    requires Partial(allowed, selected, maximum) && Elements(sorted) == allowed && |sorted| == |allowed| > maximum
    ensures Partial(allowed, AddAll(allowed, sorted, selected, maximum), maximum)
    ensures |AddAll(allowed, sorted, selected, maximum)| == (if maximum > 0 then maximum else 0)
  {
    AddAllFacts(allowed, sorted, selected, maximum);
    var r := AddAll(allowed, sorted, selected, maximum);
    if |r| < maximum {
      assert forall v :: v in allowed ==> v in Elements(sorted);
      forall v | v in allowed ensures v in Elements(r) {
        assert v in Elements(sorted);
      }
      DistinctSize(r);
      SubsetSize(allowed, Elements(r));
    }
  }

  /** Evidence never crowds the motifs out: at least half of a frontier of two or more is theirs. */
  lemma EvidenceLeavesRoom(maximum: int)
    requires maximum > 1
    ensures 2 * EvidenceBudget(maximum) <= maximum
  {
  }
}
