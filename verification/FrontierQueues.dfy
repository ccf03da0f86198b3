/**
 The queues a frontier is filled from: one for each motif that names populations, one for each
 source; what stands in them and in which order, told from sources, motifs and fields.
 */
module FrontierQueues {
  import opened Ordering

  datatype Motif = Motif(key: Id, confidence: real, fields: seq<Id>)

  datatype SourceInput = SourceInput(populations: seq<Id>, motifs: seq<Motif>)

  predicate MotifBefore(x: Motif, y: Motif) {
    x.confidence > y.confidence || (x.confidence == y.confidence && x.key < y.key)
  }

  /** The allowed populations of a source that carry a field name, in the listed order. */
  function FieldPopulations(allowed: set<Id>, populations: seq<Id>, fieldName: Id -> Id, field: Id): (r: seq<Id>)
    ensures forall v :: v in r <==> v in populations && v in allowed && fieldName(v) == field
  {
    if populations == [] then []
    else
      var rest := FieldPopulations(allowed, populations[1..], fieldName, field);
      if populations[0] in allowed && fieldName(populations[0]) == field then [populations[0]] + rest else rest
  }

  /** The populations behind a motif's fields, each once, in field order. */
  function MotifQueue(allowed: set<Id>, source: SourceInput, fieldName: Id -> Id, fields: seq<Id>): seq<Id> {
    if fields == [] then []
    else
      var queue := MotifQueue(allowed, source, fieldName, fields[..|fields| - 1]);
      AppendNew(queue, FieldPopulations(allowed, source.populations, fieldName, fields[|fields| - 1]))
  }

  function AppendNew(queue: seq<Id>, more: seq<Id>): (r: seq<Id>)
    ensures forall v :: v in r <==> v in queue || v in more
    decreases more
  {
    if more == [] then queue
    else
      assert more == [more[0]] + more[1..];
      AppendNew(if more[0] in queue then queue else queue + [more[0]], more[1..])
  }

  lemma {:induction false} MotifQueueContent(allowed: set<Id>, source: SourceInput, fieldName: Id -> Id, fields: seq<Id>, v: Id)
    ensures v in MotifQueue(allowed, source, fieldName, fields) <==>
            v in source.populations && v in allowed && fieldName(v) in fields
  {
    if fields != [] {
      MotifQueueContent(allowed, source, fieldName, fields[..|fields| - 1], v);
      assert fields == fields[..|fields| - 1] + [fields[|fields| - 1]];
    }
  }

  /** The non-empty queues among those of the motifs, in their order. */
  function NonEmpty(queueOf: Motif -> seq<Id>, motifs: seq<Motif>): seq<seq<Id>> {
    if motifs == [] then []
    else
      var queue := queueOf(motifs[|motifs| - 1]);
      NonEmpty(queueOf, motifs[..|motifs| - 1]) + (if queue == [] then [] else [queue])
  }

  function QueueBy(allowed: set<Id>, source: SourceInput, fieldName: Id -> Id): Motif -> seq<Id> {
    (m: Motif) => MotifQueue(allowed, source, fieldName, m.fields)
  }

  /** The non-empty motif queues of one source, in the order of the motifs. */
  function QueuesOf(allowed: set<Id>, source: SourceInput, fieldName: Id -> Id, motifs: seq<Motif>): seq<seq<Id>> {
    NonEmpty(QueueBy(allowed, source, fieldName), motifs)
  }

  /** The motif queues of all sources, the strongest motif of a source first. */
  function MotifQueues(allowed: set<Id>, sources: seq<SourceInput>, fieldName: Id -> Id): seq<seq<Id>> {
    if sources == [] then []
    else
      var last := sources[|sources| - 1];
      MotifQueues(allowed, sources[..|sources| - 1], fieldName) + QueuesOf(allowed, last, fieldName, SortBy(last.motifs, MotifBefore))
  }

  lemma MotifQueuesAllowed(allowed: set<Id>, sources: seq<SourceInput>, fieldName: Id -> Id)
    ensures forall q, v :: 0 <= q < |MotifQueues(allowed, sources, fieldName)| && v in MotifQueues(allowed, sources, fieldName)[q] ==> v in allowed
  {
    var queues := MotifQueues(allowed, sources, fieldName);
    var places := MotifQueuesPlaced(allowed, sources, fieldName);
    forall q, v | 0 <= q < |queues| && v in queues[q] ensures v in allowed {
      assert QueueAt(allowed, sources, fieldName, queues[q], places[q]);
    }
  }

  predicate Ascends(a: Id, b: Id) { a < b }

  /** What a source can still offer: its allowed populations not selected yet, sorted. */
  function SourceQueue(allowed: set<Id>, populations: seq<Id>, selected: seq<Id>): (r: seq<Id>) {
    SortBy(Remaining(allowed, populations, selected), Ascends)
  }

  function Remaining(allowed: set<Id>, populations: seq<Id>, selected: seq<Id>): (r: seq<Id>)
    ensures forall v :: v in r <==> v in populations && v in allowed && v !in selected
  {
    if populations == [] then []
    else
      var rest := Remaining(allowed, populations[1..], selected);
      if populations[0] in allowed && populations[0] !in selected then [populations[0]] + rest else rest
  }

  function SourceQueues(allowed: set<Id>, sources: seq<SourceInput>, selected: seq<Id>): (r: seq<seq<Id>>)
    ensures |r| == |sources|
    ensures forall k :: 0 <= k < |sources| ==> r[k] == SourceQueue(allowed, sources[k].populations, selected)
  {
    seq(|sources|, k requires 0 <= k < |sources| => SourceQueue(allowed, sources[k].populations, selected))
  }

  lemma SourceQueuesAllowed(allowed: set<Id>, sources: seq<SourceInput>, selected: seq<Id>)
    ensures forall q, v :: 0 <= q < |sources| && v in SourceQueues(allowed, sources, selected)[q] ==> v in allowed
  {
    forall q, v | 0 <= q < |sources| && v in SourceQueues(allowed, sources, selected)[q] ensures v in allowed {
      SortKeeps(Remaining(allowed, sources[q].populations, selected), Ascends);
    }
  }

  // --- where an element first stands ----------------------------------------------------------------------

  /** The first position of an element, or the length when it is missing. */
  function FirstAt<T(==)>(xs: seq<T>, x: T): nat {
    if xs == [] || xs[0] == x then 0 else 1 + FirstAt(xs[1..], x)
  }

  lemma {:induction false} FirstAtFacts<T>(xs: seq<T>, x: T)
    ensures FirstAt(xs, x) <= |xs| && (x in xs <==> FirstAt(xs, x) < |xs|)
    ensures x in xs ==> xs[FirstAt(xs, x)] == x
  {
    if xs != [] && xs[0] != x {
      FirstAtFacts(xs[1..], x);
      assert xs == [xs[0]] + xs[1..];
    }
  }

  lemma {:induction false} FirstAtConcat<T>(xs: seq<T>, ys: seq<T>, x: T)
    ensures FirstAt(xs + ys, x) == if x in xs then FirstAt(xs, x) else |xs| + FirstAt(ys, x)
  {
    if xs == [] {
      assert xs + ys == ys;
    } else {
      assert xs == [xs[0]] + xs[1..];
      assert (xs + ys)[0] == xs[0] && (xs + ys)[1..] == xs[1..] + ys;
      if xs[0] != x {
        FirstAtConcat(xs[1..], ys, x);
      }
    }
  }

  // --- the order within a queue ------------------------------------------------------------------------------

  /** `a` comes before `b`: its field is named earlier, or they share a field and it is listed earlier. */
  ghost predicate Sooner(source: SourceInput, fieldName: Id -> Id, fields: seq<Id>, a: Id, b: Id) {
    || FirstAt(fields, fieldName(a)) < FirstAt(fields, fieldName(b))
    || (fieldName(a) == fieldName(b) && FirstAt(source.populations, a) < FirstAt(source.populations, b))
  }

  /** A population the motif stands for: allowed, of the source, and in one of the fields. */
  predicate NamedBy(allowed: set<Id>, source: SourceInput, fieldName: Id -> Id, fields: seq<Id>, v: Id) {
    v in allowed && v in source.populations && fieldName(v) in fields
  }

  /** The queue lists exactly the populations of the motif, by field and then as the source does. */
  ghost predicate QueueFor(allowed: set<Id>, source: SourceInput, fieldName: Id -> Id, fields: seq<Id>, queue: seq<Id>) {
    && (forall v :: v in queue <==> NamedBy(allowed, source, fieldName, fields, v))
    && SoonerFirst(source, fieldName, fields, queue)
  }

  /** What appending the new elements of a list adds: each once, in the order of the list. */
  ghost predicate Appended(queue: seq<Id>, more: seq<Id>, r: seq<Id>) {
    && |queue| <= |r| && r[..|queue|] == queue
    && (forall i :: |queue| <= i < |r| ==> r[i] in more && r[i] !in queue)
    && (forall i, j :: |queue| <= i < j < |r| ==> FirstAt(more, r[i]) < FirstAt(more, r[j]))
  }

  lemma {:induction false} AppendNewFacts(queue: seq<Id>, more: seq<Id>)
    ensures Appended(queue, more, AppendNew(queue, more))
    decreases |more|
  {
    if more != [] {
      var next := if more[0] in queue then queue else queue + [more[0]];
      var r := AppendNew(next, more[1..]);
      AppendNewFacts(next, more[1..]);
      AppendedOneMore(queue, more, next, r);
    }
  }

  lemma AppendedOneMore(queue: seq<Id>, more: seq<Id>, next: seq<Id>, r: seq<Id>)
    requires more != [] && next == (if more[0] in queue then queue else queue + [more[0]]) && Appended(next, more[1..], r)
    ensures Appended(queue, more, r)
  {
    assert more == [more[0]] + more[1..];
    assert r[..|queue|] == next[..|queue|] == queue;
    assert forall i :: 0 <= i < |next| ==> r[i] == next[i];
    forall i | |next| <= i < |r| ensures r[i] != more[0] && FirstAt(more, r[i]) == 1 + FirstAt(more[1..], r[i]) && r[i] !in queue {
      assert more[0] in next;
    }
  }

  /** In a filtered list the order of first positions is the one of the whole list. */
  lemma {:induction false} FilteredOrder(allowed: set<Id>, populations: seq<Id>, fieldName: Id -> Id, field: Id, a: Id, b: Id)
    requires a in populations && a in allowed && fieldName(a) == field && b in populations && b in allowed && fieldName(b) == field
    requires FirstAt(FieldPopulations(allowed, populations, fieldName, field), a) < FirstAt(FieldPopulations(allowed, populations, fieldName, field), b)
    ensures FirstAt(populations, a) < FirstAt(populations, b)
    decreases |populations|
  {
    assert populations == [populations[0]] + populations[1..];
    if populations[0] != a && populations[0] != b {
      FilteredOrder(allowed, populations[1..], fieldName, field, a, b);
    }
  }

  lemma {:induction false} MotifQueueOrder(allowed: set<Id>, source: SourceInput, fieldName: Id -> Id, fields: seq<Id>)
    ensures QueueFor(allowed, source, fieldName, fields, MotifQueue(allowed, source, fieldName, fields))
    decreases |fields|
  {
    MotifQueueHas(allowed, source, fieldName, fields);
    if fields != [] {
      MotifQueueOrder(allowed, source, fieldName, fields[..|fields| - 1]);
      OneMoreField(allowed, source, fieldName, fields);
    }
  }

  /** No population of the queue stands in front of a sooner one. */
  ghost predicate SoonerFirst(source: SourceInput, fieldName: Id -> Id, fields: seq<Id>, queue: seq<Id>) {
    forall i, j :: 0 <= i < j < |queue| ==> Sooner(source, fieldName, fields, queue[i], queue[j])
  }

  lemma OneMoreField(allowed: set<Id>, source: SourceInput, fieldName: Id -> Id, fields: seq<Id>)
    requires fields != []
    requires QueueFor(allowed, source, fieldName, fields[..|fields| - 1], MotifQueue(allowed, source, fieldName, fields[..|fields| - 1]))
    ensures SoonerFirst(source, fieldName, fields, MotifQueue(allowed, source, fieldName, fields))
  {
    var init, last := fields[..|fields| - 1], fields[|fields| - 1];
    FieldAppended(allowed, source, fieldName, init, last, MotifQueue(allowed, source, fieldName, init));
    assert init + [last] == fields;
  }

  lemma MotifQueueHas(allowed: set<Id>, source: SourceInput, fieldName: Id -> Id, fields: seq<Id>)
    ensures forall v :: v in MotifQueue(allowed, source, fieldName, fields) <==> NamedBy(allowed, source, fieldName, fields, v)
  {
    forall v ensures v in MotifQueue(allowed, source, fieldName, fields) <==> NamedBy(allowed, source, fieldName, fields, v) {
      MotifQueueContent(allowed, source, fieldName, fields, v);
    }
  }

  lemma FieldAppended(allowed: set<Id>, source: SourceInput, fieldName: Id -> Id, fields: seq<Id>, field: Id, queue: seq<Id>)
    requires QueueFor(allowed, source, fieldName, fields, queue)
    ensures SoonerFirst(source, fieldName, fields + [field], AppendNew(queue, FieldPopulations(allowed, source.populations, fieldName, field)))
  {
    var more := FieldPopulations(allowed, source.populations, fieldName, field);
    var r := AppendNew(queue, more);
    AppendNewFacts(queue, more);
    assert forall i :: 0 <= i < |queue| ==> r[i] == queue[i];
    forall i, j | 0 <= i < j < |r| ensures Sooner(source, fieldName, fields + [field], r[i], r[j]) {
      FirstAtConcat(fields, [field], fieldName(r[i]));
      FirstAtConcat(fields, [field], fieldName(r[j]));
      FirstAtFacts(fields, fieldName(r[i]));
      FirstAtFacts(fields, fieldName(r[j]));
      if j < |queue| {
        assert r[i] in queue && r[j] in queue;
        assert Sooner(source, fieldName, fields, queue[i], queue[j]);
      } else if i < |queue| {
        assert r[i] in queue && r[j] in more && r[j] !in queue;
      } else {
        FilteredOrder(allowed, source.populations, fieldName, field, r[i], r[j]);
      }
    }
  }

  // --- the order of the queues ---------------------------------------------------------------------------------

  /** The motif with more confidence comes first, then the lesser key, then the one listed first. */
  ghost predicate StrongerMotif(motifs: seq<Motif>, i: nat, j: nat)
    requires i < |motifs| && j < |motifs|
  {
    || motifs[i].confidence > motifs[j].confidence
    || (motifs[i].confidence == motifs[j].confidence &&
        (motifs[i].key < motifs[j].key || (motifs[i].key == motifs[j].key && i < j)))
  }

  /** A motif's place: its source, and its position in that source's list. */
  datatype Place = Place(source: nat, motif: nat)

  ghost predicate PlaceIn(sources: seq<SourceInput>, at: Place) {
    at.source < |sources| && at.motif < |sources[at.source].motifs|
  }

  /** Earlier source, or the stronger motif of the same source. */
  ghost predicate PlaceBefore(sources: seq<SourceInput>, a: Place, b: Place)
    requires PlaceIn(sources, a) && PlaceIn(sources, b)
  {
    a.source < b.source || (a.source == b.source && StrongerMotif(sources[a.source].motifs, a.motif, b.motif))
  }

  /** The queue at a place lists the populations of the motif that stands there, of which there are some. */
  ghost predicate QueueAt(allowed: set<Id>, sources: seq<SourceInput>, fieldName: Id -> Id, queue: seq<Id>, at: Place) {
    && PlaceIn(sources, at) && queue != []
    && QueueFor(allowed, sources[at.source], fieldName, sources[at.source].motifs[at.motif].fields, queue)
  }

  /** The motif at a place stands for some population. */
  ghost predicate Stands(allowed: set<Id>, sources: seq<SourceInput>, fieldName: Id -> Id, at: Place) {
    PlaceIn(sources, at) && exists v :: NamedBy(allowed, sources[at.source], fieldName, sources[at.source].motifs[at.motif].fields, v)
  }

  /** One queue for every motif that stands for some population, in the order of their places. */
  ghost predicate QueuesAt(allowed: set<Id>, sources: seq<SourceInput>, fieldName: Id -> Id, queues: seq<seq<Id>>, places: seq<Place>) {
    && |queues| == |places|
    && (forall q :: 0 <= q < |places| ==> QueueAt(allowed, sources, fieldName, queues[q], places[q]))
    && (forall q, r :: 0 <= q < r < |places| ==> PlaceBefore(sources, places[q], places[r]))
    && (forall at :: Stands(allowed, sources, fieldName, at) ==> at in places)
  }

  /** Which of the first `n` motifs the queues belong to. */
  ghost predicate QueuesFrom(queueOf: Motif -> seq<Id>, motifs: seq<Motif>, n: nat, queues: seq<seq<Id>>, from: seq<nat>) {
    && |queues| == |from| && n <= |motifs|
    && (forall q :: 0 <= q < |from| ==> IsQueueOf(queueOf, motifs, n, queues[q], from[q]))
    && (forall q, r :: 0 <= q < r < |from| ==> from[q] < from[r])
    && (forall i: nat :: i < n && queueOf(motifs[i]) != [] ==> i in from)
  }

  ghost predicate IsQueueOf(queueOf: Motif -> seq<Id>, motifs: seq<Motif>, n: nat, queue: seq<Id>, i: nat) {
    i < n <= |motifs| && queue != [] && queue == queueOf(motifs[i])
  }

  lemma {:induction false} QueuesAreFrom(queueOf: Motif -> seq<Id>, motifs: seq<Motif>, n: nat) returns (from: seq<nat>)
    requires n <= |motifs|
    ensures QueuesFrom(queueOf, motifs, n, NonEmpty(queueOf, motifs[..n]), from)
    decreases n
  {
    from := [];
    if n > 0 {
      from := QueuesAreFrom(queueOf, motifs, n - 1);
      FromOneMore(queueOf, motifs, n - 1, NonEmpty(queueOf, motifs[..n - 1]), from);
      assert motifs[..n][..n - 1] == motifs[..n - 1] && motifs[..n][n - 1] == motifs[n - 1];
      if queueOf(motifs[n - 1]) != [] {
        from := from + [n - 1];
      }
    }
  }

  lemma FromOneMore(queueOf: Motif -> seq<Id>, motifs: seq<Motif>, n: nat, queues: seq<seq<Id>>, from: seq<nat>)
    requires n < |motifs| && QueuesFrom(queueOf, motifs, n, queues, from)
    ensures queueOf(motifs[n]) == [] ==> QueuesFrom(queueOf, motifs, n + 1, queues, from)
    ensures queueOf(motifs[n]) != [] ==> QueuesFrom(queueOf, motifs, n + 1, queues + [queueOf(motifs[n])], from + [n])
  {
    forall q | 0 <= q < |from| ensures IsQueueOf(queueOf, motifs, n + 1, queues[q], from[q]) && from[q] < n {
      assert IsQueueOf(queueOf, motifs, n, queues[q], from[q]);
    }
  }

  /** The places of the queues of one source: the positions its motifs had before they were sorted. */
  ghost function PlacesOf(s: nat, at: seq<nat>, from: seq<nat>): (places: seq<Place>)
    requires forall q :: 0 <= q < |from| ==> from[q] < |at|
    ensures |places| == |from| && forall q :: 0 <= q < |from| ==> places[q] == Place(s, at[from[q]])
  {
    seq(|from|, q requires 0 <= q < |from| => Place(s, at[from[q]]))
  }

  lemma MotifOrder(motifs: seq<Motif>) returns (at: seq<nat>)
    ensures |at| == |motifs| && (forall i :: 0 <= i < |at| ==> at[i] < |motifs| && SortBy(motifs, MotifBefore)[i] == motifs[at[i]])
    ensures forall i, j :: 0 <= i < j < |at| ==> StrongerMotif(motifs, at[i], at[j])
    ensures forall k: nat :: k < |motifs| ==> k in at
  {
    assert StrictWeak(MotifBefore);
    at := SortIsStable(motifs, MotifBefore);
  }

  /** The queues of one source, in their places. */
  lemma SourcePlaces(allowed: set<Id>, sources: seq<SourceInput>, fieldName: Id -> Id, s: nat) returns (places: seq<Place>)
    requires s < |sources|
    ensures var queues := QueuesOf(allowed, sources[s], fieldName, SortBy(sources[s].motifs, MotifBefore));
      && |queues| == |places|
      && (forall q :: 0 <= q < |places| ==> places[q].source == s && QueueAt(allowed, sources, fieldName, queues[q], places[q]))
    ensures forall q, r :: 0 <= q < r < |places| ==> PlaceBefore(sources, places[q], places[r])
    ensures forall at :: Stands(allowed, sources, fieldName, at) && at.source == s ==> at in places
  {
    var source := sources[s];
    var at := MotifOrder(source.motifs);
    var sorted := SortBy(source.motifs, MotifBefore);
    var queueOf := QueueBy(allowed, source, fieldName);
    var from := QueuesAreFrom(queueOf, sorted, |sorted|);
    assert sorted[..|sorted|] == sorted;
    places := PlacesOf(s, at, from);
    forall q | 0 <= q < |places| ensures QueueAt(allowed, sources, fieldName, QueuesOf(allowed, source, fieldName, sorted)[q], places[q]) {
      assert IsQueueOf(queueOf, sorted, |sorted|, QueuesOf(allowed, source, fieldName, sorted)[q], from[q]);
      MotifQueueOrder(allowed, source, fieldName, sorted[from[q]].fields);
    }
    forall p | Stands(allowed, sources, fieldName, p) && p.source == s ensures p in places {
      assert p.motif in at;
      var i :| 0 <= i < |at| && at[i] == p.motif;
      MotifQueueHas(allowed, source, fieldName, sorted[i].fields);
      var v :| NamedBy(allowed, source, fieldName, sorted[i].fields, v);
      assert v in MotifQueue(allowed, source, fieldName, sorted[i].fields);
      assert queueOf(sorted[i]) != [] && i in from;
      var q :| 0 <= q < |from| && from[q] == i;
      assert places[q] == p;
    }
  }

  /** Every motif queue has its place. */
  lemma {:induction false} MotifQueuesPlaced(allowed: set<Id>, sources: seq<SourceInput>, fieldName: Id -> Id) returns (places: seq<Place>)
    ensures QueuesAt(allowed, sources, fieldName, MotifQueues(allowed, sources, fieldName), places)
    decreases |sources|
  {
    places := [];
    if sources != [] {
      var n := |sources| - 1;
      var before := MotifQueuesPlaced(allowed, sources[..n], fieldName);
      var last := SourcePlaces(allowed, sources, fieldName, n);
      places := before + last;
      PlacesConcat(allowed, sources, fieldName, MotifQueues(allowed, sources[..n], fieldName), before,
                   QueuesOf(allowed, sources[n], fieldName, SortBy(sources[n].motifs, MotifBefore)), last);
    }
  }

  lemma PlacesConcat(
      allowed: set<Id>, sources: seq<SourceInput>, fieldName: Id -> Id, earlier: seq<seq<Id>>, before: seq<Place>, queues: seq<seq<Id>>, last: seq<Place>)
    requires sources != [] && QueuesAt(allowed, sources[..|sources| - 1], fieldName, earlier, before) && |queues| == |last|
    requires forall q :: 0 <= q < |last| ==> PlaceIn(sources, last[q]) && last[q].source == |sources| - 1
    requires forall q :: 0 <= q < |last| ==> QueueAt(allowed, sources, fieldName, queues[q], last[q])
    requires forall q, r :: 0 <= q < r < |last| ==> PlaceBefore(sources, last[q], last[r])
    requires forall at :: Stands(allowed, sources, fieldName, at) && at.source == |sources| - 1 ==> at in last
    ensures QueuesAt(allowed, sources, fieldName, earlier + queues, before + last)
  {
    var init := sources[..|sources| - 1];
    forall q | 0 <= q < |before| ensures QueueAt(allowed, sources, fieldName, earlier[q], before[q]) && before[q].source < |init| {
      InEarlierSources(allowed, sources, fieldName, earlier[q], before[q]);
    }
    forall q, r | 0 <= q < r < |before| ensures PlaceBefore(sources, before[q], before[r]) {
      assert PlaceBefore(init, before[q], before[r]);
    }
    forall at | Stands(allowed, sources, fieldName, at) ensures at in before + last {
      if at.source < |init| {
        StandsInEarlier(allowed, sources, fieldName, at);
      }
    }
  }

  lemma InEarlierSources(allowed: set<Id>, sources: seq<SourceInput>, fieldName: Id -> Id, queue: seq<Id>, at: Place)
    requires sources != [] && QueueAt(allowed, sources[..|sources| - 1], fieldName, queue, at)
    ensures QueueAt(allowed, sources, fieldName, queue, at) && at.source < |sources| - 1
  {
  }

  lemma StandsInEarlier(allowed: set<Id>, sources: seq<SourceInput>, fieldName: Id -> Id, at: Place)
    requires sources != [] && at.source < |sources| - 1 && Stands(allowed, sources, fieldName, at)
    ensures Stands(allowed, sources[..|sources| - 1], fieldName, at)
  {
  }
}
