/**
 The execution directory as a state machine: what is on disk, the atomic writes and client
 calls that act on it, and which of those are safe. A crash keeps a prefix of a run's
 events, so whatever holds along every safe trace holds across crashes and restarts.
 */
module Recovery {
  import opened Wrappers
  import opened Ordering
  import opened WorkPlan

  /** A normalised result: the node keys it proposes and the nodes of other results it refers to. */
  datatype WorkResult = WorkResult(workId: Id, schema: Kind, nodes: set<Id>, refs: set<(Id, Id)>, body: int)

  datatype Entry = Completed(attempts: nat) | Failed(attempts: nat)

  /** The files of an execution directory: one result file per work id, and the manifest. */
  datatype Disk = Disk(files: map<Id, WorkResult>, manifest: Option<map<Id, Entry>>)

  /** A plan, the checks a result must pass by itself, and the local correspondence model. */
  datatype Context = Context(plan: Index, ownValid: (WorkItem, WorkResult) -> bool, local: WorkItem -> WorkResult)

  // --- validation of one result ------------------------------------------------------------------

  predicate OwnChecks(ctx: Context, r: WorkResult) {
    r.workId in ctx.plan && r.schema == ctx.plan[r.workId].kind && ctx.ownValid(ctx.plan[r.workId], r)
  }

  /** The synthesis results a bridge may refer to. */
  function Syntheses(plan: Index, work: WorkItem): set<Id> {
    set d | d in work.dependsOn && d in plan && plan[d].kind == NeighborhoodSynthesis
  }

  predicate RefsAgree(ctx: Context, r: WorkResult, priors: map<Id, WorkResult>)
    requires r.workId in ctx.plan
  {
    forall ref :: ref in r.refs ==>
      ref.0 in Syntheses(ctx.plan, ctx.plan[r.workId]) && (ref.0 in priors ==> ref.1 in priors[ref.0].nodes)
  }

  predicate PriorsValid(ctx: Context, priors: map<Id, WorkResult>) {
    forall p :: p in priors ==> priors[p].workId == p && OwnChecks(ctx, priors[p]) && priors[p].schema == NeighborhoodSynthesis
  }

  /** `validate_excavation_result`: only bridge results look at the prior results. */
  predicate Validates(ctx: Context, r: WorkResult, priors: map<Id, WorkResult>) {
    && OwnChecks(ctx, r)
    && (r.schema == BridgeSynthesis ==> PriorsValid(ctx, priors) && RefsAgree(ctx, r, priors))
  }

  // --- the disk ------------------------------------------------------------------------------------

  predicate Marked(d: Disk, w: Id) {
    d.manifest.Some? && w in d.manifest.value && d.manifest.value[w].Completed?
  }

  /** Marked completed with its result file present: the work is resumed, not run. */
  predicate Done(d: Disk, w: Id) {
    Marked(d, w) && w in d.files
  }

  /** A result that validates now and under any later choice of finished prior results. */
  ghost predicate Settled(ctx: Context, d: Disk, w: Id, r: WorkResult) {
    && r.workId == w && w in ctx.plan && r.schema == ctx.plan[w].kind && ctx.ownValid(ctx.plan[w], r)
    && (r.schema == BridgeSynthesis ==> forall ref :: ref in r.refs ==> Refers(ctx, d, w, ref))
  }

  /** A reference to a node of a finished synthesis that the work depends on. */
  ghost predicate Refers(ctx: Context, d: Disk, w: Id, ref: (Id, Id))
    requires w in ctx.plan
  {
    && ref.0 in ctx.plan[w].dependsOn && ref.0 in ctx.plan && ctx.plan[ref.0].kind == NeighborhoodSynthesis
    && Done(d, ref.0) && ref.1 in d.files[ref.0].nodes
  }

  /** Every id marked completed on disk has its validated result on disk. */
  ghost predicate Consistent(ctx: Context, d: Disk) {
    forall w :: Marked(d, w) ==> w in d.files && Settled(ctx, d, w, d.files[w])
  }

  // --- events ----------------------------------------------------------------------------------------

  datatype Event = WroteResult(w: Id, result: WorkResult) | WroteManifest(entries: map<Id, Entry>) | Called(w: Id)

  function Apply(d: Disk, e: Event): Disk {
    match e
    case WroteResult(w, r) => d.(files := d.files[w := r])
    case WroteManifest(m) => d.(manifest := Some(m))
    case Called(_) => d
  }

  function Replay(d: Disk, events: seq<Event>): Disk {
    if events == [] then d else Apply(Replay(d, events[..|events| - 1]), events[|events| - 1])
  }

  /** Finished work is never overwritten, unmarked or asked of the client again. */
  ghost predicate SafeEvent(ctx: Context, d: Disk, e: Event) {
    match e
    case WroteResult(w, _) => !Done(d, w)
    case Called(w) => !Done(d, w)
    case WroteManifest(m) =>
      && (forall w :: Done(d, w) ==> w in m && m[w].Completed?)
      && (forall w :: w in m && m[w].Completed? ==> w in d.files && Settled(ctx, d, w, d.files[w]))
  }

  ghost predicate SafeTrace(ctx: Context, d: Disk, events: seq<Event>) {
    events == [] ||
    (SafeTrace(ctx, d, events[..|events| - 1]) && SafeEvent(ctx, Replay(d, events[..|events| - 1]), events[|events| - 1]))
  }

  /** Finished in one state, finished with the same result in the next. */
  ghost predicate Keeps(d: Disk, later: Disk) {
    forall w :: Done(d, w) ==> Done(later, w) && later.files[w] == d.files[w]
  }

  lemma SafeStep(ctx: Context, d: Disk, e: Event)
    requires Consistent(ctx, d) && SafeEvent(ctx, d, e)
    ensures Consistent(ctx, Apply(d, e)) && Keeps(d, Apply(d, e))
  {
    var next := Apply(d, e);
    assert Keeps(d, next);
    forall w | Marked(next, w) ensures w in next.files && Settled(ctx, next, w, next.files[w]) {
      assert w in d.files && Settled(ctx, d, w, d.files[w]);
      SettledStays(ctx, d, next, w, d.files[w]);
    }
  }

  lemma SettledStays(ctx: Context, d: Disk, later: Disk, w: Id, r: WorkResult)
    requires Settled(ctx, d, w, r) && Keeps(d, later)
    ensures Settled(ctx, later, w, r)
  {
  }

  lemma {:induction false} SafeTraceKeeps(ctx: Context, d: Disk, events: seq<Event>)
    requires Consistent(ctx, d) && SafeTrace(ctx, d, events)
    ensures Consistent(ctx, Replay(d, events)) && Keeps(d, Replay(d, events))
  {
    if events != [] {
      var init := events[..|events| - 1];
      SafeTraceKeeps(ctx, d, init);
      SafeStep(ctx, Replay(d, init), events[|events| - 1]);
    }
  }

  lemma {:induction false} ReplayConcat(d: Disk, a: seq<Event>, b: seq<Event>)
    ensures Replay(d, a + b) == Replay(Replay(d, a), b)
  {
    if b == [] {
      assert a + b == a;
    } else {
      ReplayConcat(d, a, b[..|b| - 1]);
      assert (a + b)[..|a + b| - 1] == a + b[..|b| - 1];
    }
  }

  lemma {:induction false} SafeConcat(ctx: Context, d: Disk, a: seq<Event>, b: seq<Event>)
    requires SafeTrace(ctx, d, a) && SafeTrace(ctx, Replay(d, a), b)
    ensures SafeTrace(ctx, d, a + b)
  {
    if b == [] {
      assert a + b == a;
    } else {
      SafeConcat(ctx, d, a, b[..|b| - 1]);
      ReplayConcat(d, a, b[..|b| - 1]);
      assert (a + b)[..|a + b| - 1] == a + b[..|b| - 1];
    }
  }

  lemma {:induction false} SafePrefix(ctx: Context, d: Disk, events: seq<Event>, k: nat)
    requires SafeTrace(ctx, d, events) && k <= |events|
    ensures SafeTrace(ctx, d, events[..k])
    decreases |events|
  {
    if k < |events| {
      SafePrefix(ctx, d, events[..|events| - 1], k);
      assert events[..|events| - 1][..k] == events[..k];
    } else {
      assert events[..k] == events;
    }
  }

  lemma {:induction false} SafeSuffix(ctx: Context, d: Disk, events: seq<Event>, k: nat)
    requires SafeTrace(ctx, d, events) && k <= |events|
    ensures SafeTrace(ctx, Replay(d, events[..k]), events[k..])
    ensures Replay(Replay(d, events[..k]), events[k..]) == Replay(d, events)
    decreases |events|
  {
    assert events == events[..k] + events[k..];
    ReplayConcat(d, events[..k], events[k..]);
    if k < |events| {
      var init, rest := events[..|events| - 1], events[k..];
      SafeSuffix(ctx, d, init, k);
      assert init[..k] == events[..k] && init[k..] == rest[..|rest| - 1];
    }
  }

  // --- histories: runs, each cut short anywhere -----------------------------------------------------

  function Flatten(runs: seq<seq<Event>>): seq<Event> {
    if runs == [] then [] else Flatten(runs[..|runs| - 1]) + runs[|runs| - 1]
  }

  /** Traces of runs, each safe from the disk the one before left; the executor's runs, cut short anywhere, are such. */
  ghost predicate History(ctx: Context, d: Disk, runs: seq<seq<Event>>) {
    runs == [] ||
    (History(ctx, d, runs[..|runs| - 1]) && SafeTrace(ctx, Replay(d, Flatten(runs[..|runs| - 1])), runs[|runs| - 1]))
  }

  lemma {:induction false} HistoryIsSafe(ctx: Context, d: Disk, runs: seq<seq<Event>>)
    requires History(ctx, d, runs)
    ensures SafeTrace(ctx, d, Flatten(runs))
  {
    if runs != [] {
      HistoryIsSafe(ctx, d, runs[..|runs| - 1]);
      SafeConcat(ctx, d, Flatten(runs[..|runs| - 1]), runs[|runs| - 1]);
    }
  }

  /**
   At every moment of every history the disk is consistent, and work finished by moment `i`
   is at any later moment `j` still finished with the same result and not the one being
   asked of the client, overwritten or unmarked.
   */
  lemma FinishedForGood(ctx: Context, d: Disk, runs: seq<seq<Event>>, i: nat, j: nat, w: Id)
    requires Consistent(ctx, d) && History(ctx, d, runs) && i <= j <= |Flatten(runs)|
    ensures var events := Flatten(runs);
            Consistent(ctx, Replay(d, events[..i])) &&
            (Done(Replay(d, events[..i]), w) ==>
              && Done(Replay(d, events[..j]), w)
              && Replay(d, events[..j]).files[w] == Replay(d, events[..i]).files[w]
              && (j < |events| ==> events[j] != Called(w) && !(events[j].WroteResult? && events[j].w == w)))
  {
    var events := Flatten(runs);
    HistoryIsSafe(ctx, d, runs);
    SafePrefix(ctx, d, events, i);
    SafePrefix(ctx, d, events, j);
    SafeTraceKeeps(ctx, d, events[..i]);
    SafeSuffix(ctx, d, events[..j], i);
    assert events[..j][..i] == events[..i];
    SafeTraceKeeps(ctx, Replay(d, events[..i]), events[..j][i..]);
    if j < |events| {
      NextIsSafe(ctx, d, events, j);
    }
  }

  lemma NextIsSafe(ctx: Context, d: Disk, events: seq<Event>, j: nat)
    requires SafeTrace(ctx, d, events) && j < |events|
    ensures SafeEvent(ctx, Replay(d, events[..j]), events[j])
  {
    SafePrefix(ctx, d, events, j + 1);
    assert events[..j + 1][..j] == events[..j];
  }

  /** A settled result validates under any selection of finished neighbourhood results. */
  lemma SettledValidates(ctx: Context, d: Disk, w: Id, priors: map<Id, WorkResult>)
    requires Consistent(ctx, d) && Done(d, w)
    requires forall p :: p in priors ==> Done(d, p) && priors[p] == d.files[p] && priors[p].schema == NeighborhoodSynthesis
    ensures d.files[w].workId == w && Validates(ctx, d.files[w], priors)
  {
    forall p | p in priors ensures priors[p].workId == p && OwnChecks(ctx, priors[p]) {
      assert Marked(d, p);
    }
  }
}
