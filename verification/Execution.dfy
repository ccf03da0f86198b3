/**
 The resumable executor: an execution store whose writes may fail, the repair loop around
 an arbitrary chat client, and the run over a selected closure. Every run, however it ends,
 leaves a safe trace of disk events, so the recovery theorems apply to it.
 */
module Execution {
  import opened Wrappers
  import opened Ordering
  import opened WorkPlan
  import opened Recovery

  /** One reply of the client: it raises, sends something that does not decode, or sends a result. */
  datatype Reply = Raises | Undecodable | Sends(result: WorkResult)

  /** Which reply the client gives to the n-th call of a run, asked about a work item with the results so far. */
  type Client = (Id, map<Id, WorkResult>, nat) -> Reply

  datatype RunError =
    | UnknownWork | TooManyItems | TooManyCalls | ClientRequired | StoreFailed
    | MismatchedResult | InvalidResumedResult | MissingDependency | WorkFailed

  datatype Summary = Summary(completedNow: nat, resumed: nat, localCalls: nat, clientCalls: nat)

  class ExecutionStore {
    const ctx: Context
    /** Whether the n-th attempt to write a file raises, leaving the file as it was. */
    const fault: nat -> bool
    var disk: Disk
    var manifest: map<Id, Entry>
    var writes: nat
    var calls: nat
    const start: Disk
    /** Everything that reached the disk or the client, in order. */
    var events: seq<Event>

    /** The disk is what a safe trace makes of the one found on opening. */
    ghost predicate Valid()
      reads this
    {
      SafeTrace(ctx, start, events) && disk == Replay(start, events) && Consistent(ctx, start) && Consistent(ctx, disk)
    }

    ghost predicate Synced()
      reads this
    {
      disk.manifest == Some(manifest)
    }

    constructor (ctx: Context, disk: Disk, fault: nat -> bool)
      requires Consistent(ctx, disk)
      ensures Valid() && this.ctx == ctx && start == this.disk == disk && events == [] && calls == 0
    {
      this.ctx := ctx;
      this.fault := fault;
      this.disk := disk;
      this.start := disk;
      manifest := map[];
      writes := 0;
      calls := 0;
      events := [];
    }

    method Record(e: Event)
      requires Valid() && SafeEvent(ctx, disk, e) && disk == Replay(start, events)
      modifies this`events
      ensures events == old(events) + [e]
      ensures SafeTrace(ctx, start, events) && Replay(start, events) == Apply(disk, e)
      ensures Consistent(ctx, Apply(disk, e)) && Keeps(disk, Apply(disk, e))
    {
      SafeStep(ctx, disk, e);
      assert (events + [e])[..|events|] == events;
      events := events + [e];
    }

    /** An atomic write of one result file. */
    method WriteResult(w: Id, r: WorkResult) returns (ok: bool)
      requires Valid() && !Done(disk, w)
      modifies this
      ensures Valid() && manifest == old(manifest) && calls == old(calls)
      ensures (ok <==> !fault(old(writes))) && writes == old(writes) + 1
      ensures disk == if ok then Apply(old(disk), WroteResult(w, r)) else old(disk)
      ensures events == if ok then old(events) + [WroteResult(w, r)] else old(events)
    {
      ok := !fault(writes);
      writes := writes + 1;
      if ok {
        Record(WroteResult(w, r));
        disk := disk.(files := disk.files[w := r]);
      }
    }

    /** An atomic write of the manifest held in memory. */
    method SaveManifest() returns (ok: bool)
      requires Valid() && SafeEvent(ctx, disk, WroteManifest(manifest))
      modifies this
      ensures Valid() && manifest == old(manifest) && calls == old(calls)
      ensures (ok <==> !fault(old(writes))) && writes == old(writes) + 1
      ensures disk == if ok then Apply(old(disk), WroteManifest(manifest)) else old(disk)
      ensures events == if ok then old(events) + [WroteManifest(manifest)] else old(events)
    {
      ok := !fault(writes);
      writes := writes + 1;
      if ok {
        Record(WroteManifest(manifest));
        disk := disk.(manifest := Some(manifest));
      }
    }

    /** One call of the client about unfinished work. */
    method Call(w: Id, results: map<Id, WorkResult>, client: Client) returns (reply: Reply)
      requires Valid() && !Done(disk, w)
      modifies this
      ensures Valid() && disk == old(disk) && manifest == old(manifest) && writes == old(writes)
      ensures calls == old(calls) + 1 && reply == client(w, results, old(calls))
      ensures events == old(events) + [Called(w)] && ClientCalls(events) == ClientCalls(old(events)) + 1
    {
      reply := client(w, results, calls);
      calls := calls + 1;
      ClientCallsMore(events, Called(w));
      Record(Called(w));
    }

    /** Loads the manifest found, or writes an empty one. */
    method Open() returns (ok: bool)
      requires Valid() && events == []
      modifies this
      ensures Valid() && calls == old(calls) && (ok ==> Synced())
      ensures ok <==> old(disk).manifest.Some? || !fault(old(writes))
      ensures old(disk).manifest.Some? ==> disk == old(disk) && events == []
      ensures forall e :: e in events ==> !e.Called?
      ensures SameFinished(old(disk), disk)
    {
      if disk.manifest.Some? {
        manifest := disk.manifest.value;
        return true;
      }
      manifest := map[];
      ok := SaveManifest();
    }

    predicate IsCompleted(w: Id)
      reads this
    {
      w in manifest && manifest[w].Completed? && w in disk.files
    }

    lemma CompletedIsDone(w: Id)
      requires Valid() && Synced()
      ensures IsCompleted(w) <==> Done(disk, w)
    {
    }

    /** Result file first, manifest second; a fault in either leaves the work unfinished on disk. */
    method RecordSuccess(w: Id, r: WorkResult, attempts: nat) returns (ok: bool)
      requires Valid() && Synced() && !Done(disk, w) && Settled(ctx, disk, w, r)
      modifies this
      ensures Valid() && Keeps(old(disk), disk) && calls == old(calls)
      ensures (ok <==> !fault(old(writes)) && !fault(old(writes) + 1)) && writes > old(writes)
      ensures ok ==> Synced() && Done(disk, w) && disk.files[w] == r
      ensures !ok ==> disk.manifest == old(disk).manifest && !Done(disk, w)
      ensures OnlyFinishes(old(disk), disk, w)
      ensures forall x :: x != w && x in old(manifest) ==> x in manifest && manifest[x] == old(manifest)[x]
      ensures forall x :: x != w && x in manifest ==> x in old(manifest)
      ensures ClientCalls(events) == ClientCalls(old(events))
      ensures if fault(old(writes)) then manifest == old(manifest) else manifest == old(manifest)[w := Completed(attempts)]
    {
      ghost var before := disk;
      ok := WriteResult(w, r);
      if !ok {
        return;
      }
      ClientCallsMore(old(events), WroteResult(w, r));
      SettledStays(ctx, before, disk, w, r);
      manifest := manifest[w := Completed(attempts)];
      forall x | x in manifest && manifest[x].Completed? ensures x in disk.files && Settled(ctx, disk, x, disk.files[x]) {
        if x != w {
          assert Marked(disk, x);
        }
      }
      ghost var was := events;
      ok := SaveManifest();
      ClientCallsMore(was, WroteManifest(manifest));
    }

    /** Marks unfinished work failed; the attempts accumulate over the runs. */
    method RecordFailure(w: Id, attempts: nat) returns (ok: bool)
      requires Valid() && disk.manifest.Some? && !Done(disk, w)
      requires forall x :: x != w && x in disk.manifest.value ==> x in manifest && manifest[x] == disk.manifest.value[x]
      requires forall x :: x != w && x in manifest ==> x in disk.manifest.value
      modifies this
      ensures Valid() && Keeps(old(disk), disk) && calls == old(calls) && writes == old(writes) + 1 && !Done(disk, w)
      ensures manifest == old(manifest)[w := Failed(AttemptsSoFar(old(manifest), w) + attempts)] && (ok ==> Synced())
      ensures SameFinished(old(disk), disk)
      ensures ClientCalls(events) == ClientCalls(old(events))
    {
      var before: nat := if w in manifest then manifest[w].attempts else 0;
      manifest := manifest[w := Failed(before + attempts)];
      forall x | x in manifest && manifest[x].Completed? ensures x in disk.files && Settled(ctx, disk, x, disk.files[x]) {
        assert Marked(disk, x);
      }
      ghost var was := events;
      ok := SaveManifest();
      ClientCallsMore(was, WroteManifest(manifest));
    }
  }

  /** The attempts a manifest records for some work. */
  ghost function AttemptsSoFar(manifest: map<Id, Entry>, w: Id): nat {
    if w in manifest then manifest[w].attempts else 0
  }

  /** Two disks with the same finished work and the same results of it. */
  ghost predicate SameFinished(d: Disk, later: Disk) {
    Keeps(d, later) && forall w :: Done(later, w) ==> Done(d, w)
  }

  /** Nothing but `w` was finished in between. */
  ghost predicate OnlyFinishes(d: Disk, later: Disk, w: Id) {
    forall x :: x != w && Done(later, x) ==> Done(d, x)
  }

  // --- counting client calls ------------------------------------------------------------------

  ghost function ClientCalls(events: seq<Event>): nat {
    if events == [] then 0 else ClientCalls(events[..|events| - 1]) + (if events[|events| - 1].Called? then 1 else 0)
  }

  lemma ClientCallsMore(events: seq<Event>, e: Event)
    ensures ClientCalls(events + [e]) == ClientCalls(events) + (if e.Called? then 1 else 0)
  {
    assert (events + [e])[..|events|] == events;
  }

  // --- the repair loop ---------------------------------------------------------------------------

  function NeighborhoodPriors(results: map<Id, WorkResult>): map<Id, WorkResult> {
    map w | w in results && results[w].schema == NeighborhoodSynthesis :: results[w]
  }

  /** What becomes of one reply: normalisation stamps the work id, validation accepts or refuses. */
  function Accepted(ctx: Context, w: Id, reply: Reply, results: map<Id, WorkResult>): Option<WorkResult> {
    if reply.Sends? && Validates(ctx, reply.result.(workId := w), NeighborhoodPriors(results))
    then Some(reply.result.(workId := w))
    else None
  }

  function Attempts(repairAttempts: int): nat {
    if repairAttempts + 1 > 0 then repairAttempts + 1 else 0
  }

  /** The first `n` replies neither raised nor were acceptable. */
  ghost predicate AllRefused(ctx: Context, w: Id, client: Client, first: nat, n: nat, results: map<Id, WorkResult>) {
    forall k: nat :: first <= k < first + n ==>
      !client(w, results, k).Raises? && Accepted(ctx, w, client(w, results, k), results).None?
  }

  /** One of the next `budget` replies is acceptable, and no earlier one raises. */
  ghost predicate Answered(ctx: Context, w: Id, client: Client, first: nat, budget: nat, results: map<Id, WorkResult>) {
    exists n: nat :: n < budget && AllRefused(ctx, w, client, first, n, results)
                     && Accepted(ctx, w, client(w, results, first + n), results).Some?
  }

  lemma AnsweredAfter(ctx: Context, w: Id, client: Client, first: nat, budget: nat, n: nat, results: map<Id, WorkResult>)
    requires AllRefused(ctx, w, client, first, n, results)
    ensures n < budget && Accepted(ctx, w, client(w, results, first + n), results).Some? ==> Answered(ctx, w, client, first, budget, results)
    ensures Answered(ctx, w, client, first, budget, results) ==> n < budget && !client(w, results, first + n).Raises?
  {
    if Answered(ctx, w, client, first, budget, results) {
      var k: nat :| k < budget && AllRefused(ctx, w, client, first, k, results) && Accepted(ctx, w, client(w, results, first + k), results).Some?;
      assert k >= n;
    }
  }

  /** Asks until a reply validates, a call raises, or the repair budget is spent. */
  method Generate(store: ExecutionStore, w: Id, results: map<Id, WorkResult>, client: Client, repairAttempts: int)
    returns (r: Option<WorkResult>, receipts: nat, attempts: nat)
    requires store.Valid() && !Done(store.disk, w)
    modifies store
    ensures store.Valid() && store.disk == old(store.disk) && store.manifest == old(store.manifest) && store.writes == old(store.writes)
    ensures r.Some? <==> Answered(store.ctx, w, client, old(store.calls), Attempts(repairAttempts), results)
    ensures receipts <= store.calls - old(store.calls) <= Attempts(repairAttempts)
    ensures ClientCalls(store.events) - ClientCalls(old(store.events)) == store.calls - old(store.calls)
    ensures AllRefused(store.ctx, w, client, old(store.calls), if receipts > 0 && r.Some? then receipts - 1 else receipts, results)
    ensures r.Some? ==> receipts > 0 && r == Accepted(store.ctx, w, client(w, results, old(store.calls) + receipts - 1), results)
    ensures r.Some? ==> receipts == store.calls - old(store.calls)
    ensures r.None? ==> receipts == Attempts(repairAttempts) || client(w, results, old(store.calls) + receipts).Raises?
    ensures attempts == store.calls - old(store.calls)
    ensures store.calls - old(store.calls) <= (if repairAttempts >= 0 then repairAttempts + 1 else 0)
    ensures repairAttempts >= 0 && AllRefused(store.ctx, w, client, old(store.calls), repairAttempts + 1, results) ==>
      r.None? && receipts == store.calls - old(store.calls) == repairAttempts + 1
  {
    receipts := 0;
    while receipts < Attempts(repairAttempts)
      invariant store.Valid() && store.disk == old(store.disk) && store.manifest == old(store.manifest) && store.writes == old(store.writes)
      invariant receipts == store.calls - old(store.calls) <= Attempts(repairAttempts)
      invariant ClientCalls(store.events) - ClientCalls(old(store.events)) == receipts
      invariant AllRefused(store.ctx, w, client, old(store.calls), receipts, results)
    {
      AnsweredAfter(store.ctx, w, client, old(store.calls), Attempts(repairAttempts), receipts, results);
      var reply := store.Call(w, results, client);
      if reply.Raises? {
        return None, receipts, receipts + 1;
      }
      receipts := receipts + 1;
      r := Accepted(store.ctx, w, reply, results);
      if r.Some? {
        return r, receipts, receipts;
      }
    }
    AnsweredAfter(store.ctx, w, client, old(store.calls), Attempts(repairAttempts), receipts, results);
    return None, receipts, receipts;
  }

  // --- one work item -------------------------------------------------------------------------------

  /** The results gathered so far are those of work finished on disk. */
  ghost predicate Gathered(d: Disk, results: map<Id, WorkResult>) {
    forall k :: k in results ==> Done(d, k) && results[k] == d.files[k]
  }

  /** Validated against the results of all its dependencies, a result is settled for good. */
  lemma ValidatedIsSettled(ctx: Context, d: Disk, w: Id, r: WorkResult, results: map<Id, WorkResult>)
    requires Consistent(ctx, d) && Gathered(d, results) && w in ctx.plan
    requires forall dep :: dep in ctx.plan[w].dependsOn ==> dep in results
    requires r.workId == w && Validates(ctx, r, NeighborhoodPriors(results))
    ensures Settled(ctx, d, w, r)
  {
    if r.schema == BridgeSynthesis {
      forall ref | ref in r.refs
        ensures Refers(ctx, d, w, ref)
      {
        assert Marked(d, ref.0) && Settled(ctx, d, ref.0, d.files[ref.0]);
        assert ref.0 in NeighborhoodPriors(results);
      }
    }
  }

  /**
   With the results of all dependencies at hand, a reply is acceptable exactly when it is of the work's
   kind, valid by itself, and refers only to nodes of finished syntheses that the work depends on.
   */
  lemma AcceptedExactly(ctx: Context, d: Disk, w: Id, reply: Reply, results: map<Id, WorkResult>)
    requires Consistent(ctx, d) && Gathered(d, results) && w in ctx.plan
    requires forall dep :: dep in ctx.plan[w].dependsOn ==> dep in results
    ensures Accepted(ctx, w, reply, results).Some? <==>
      && reply.Sends? && reply.result.schema == ctx.plan[w].kind && ctx.ownValid(ctx.plan[w], reply.result.(workId := w))
      && (reply.result.schema == BridgeSynthesis ==> forall ref :: ref in reply.result.refs ==> Refers(ctx, d, w, ref))
    ensures Accepted(ctx, w, reply, results).Some? ==> Accepted(ctx, w, reply, results) == Some(reply.result.(workId := w))
  {
    forall k | k in results ensures Settled(ctx, d, k, results[k]) {
      assert Marked(d, k);
    }
    if reply.Sends? {
      var r := reply.result.(workId := w);
      forall ref | ref in r.refs && Refers(ctx, d, w, ref) ensures ref.0 in results && ref.0 in NeighborhoodPriors(results) {
      }
      if Validates(ctx, r, NeighborhoodPriors(results)) {
        ValidatedIsSettled(ctx, d, w, r, results);
      }
    }
  }

  /** The work gives a result that validates: the local model's, or one of the client's next replies. */
  ghost predicate Produces(ctx: Context, w: Id, client: Client, first: nat, repairAttempts: int, results: map<Id, WorkResult>)
    requires w in ctx.plan
  {
    if ctx.plan[w].kind == Correspondence then Validates(ctx, ctx.local(ctx.plan[w]).(workId := w), map[])
    else Answered(ctx, w, client, first, Attempts(repairAttempts), results)
  }

  /** Why work fails: no result that validates, or a fault when its result or the manifest is written. */
  ghost predicate Breaks(
      ctx: Context, fault: nat -> bool, w: Id, client: Client, repairAttempts: int, results: map<Id, WorkResult>, calls: nat, writes: nat)
    requires w in ctx.plan
  {
    !Produces(ctx, w, client, calls, repairAttempts, results) || fault(writes) || fault(writes + 1)
  }

  /** A result that validates: the local model's, or the first acceptable reply of the client. */
  method Produce(store: ExecutionStore, w: Id, results: map<Id, WorkResult>, client: Client, repairAttempts: int)
    returns (r: Option<WorkResult>, receipts: nat, attempts: nat)
    requires store.Valid() && w in store.ctx.plan && !Done(store.disk, w)
    modifies store
    ensures store.Valid() && store.disk == old(store.disk) && store.manifest == old(store.manifest) && store.writes == old(store.writes)
    ensures r.Some? <==> Produces(store.ctx, w, client, old(store.calls), repairAttempts, results)
    ensures r.Some? ==> r.value.workId == w && Validates(store.ctx, r.value, NeighborhoodPriors(results))
    ensures r.Some? ==> receipts == store.calls - old(store.calls)
    ensures attempts == if store.ctx.plan[w].kind == Correspondence then 1 else store.calls - old(store.calls)
    ensures ClientCalls(store.events) - ClientCalls(old(store.events)) == store.calls - old(store.calls)
    ensures 0 <= store.calls - old(store.calls) <= (if Generative(store.ctx.plan[w].kind) then Attempts(repairAttempts) else 0)
    ensures
      && store.ctx.plan[w].kind != Correspondence && repairAttempts >= 0
      && AllRefused(store.ctx, w, client, old(store.calls), repairAttempts + 1, results) ==>
      r.None? && store.calls == old(store.calls) + repairAttempts + 1
  {
    if store.ctx.plan[w].kind == Correspondence {
      var local := store.ctx.local(store.ctx.plan[w]).(workId := w);
      return if Validates(store.ctx, local, map[]) then Some(local) else None, 0, 1;
    }
    r, receipts, attempts := Generate(store, w, results, client, repairAttempts);
  }

  /** The guarded part of a run: produce, validate and record one result, or record its failure. */
  method RunWork(store: ExecutionStore, w: Id, results: map<Id, WorkResult>, client: Client, repairAttempts: int)
    returns (r: Option<WorkResult>, receipts: nat)
    requires store.Valid() && store.Synced() && w in store.ctx.plan && !Done(store.disk, w)
    requires Gathered(store.disk, results) && forall dep :: dep in store.ctx.plan[w].dependsOn ==> dep in results
    modifies store
    ensures store.Valid() && Keeps(old(store.disk), store.disk)
    ensures r.Some? ==> store.Synced() && Done(store.disk, w) && store.disk.files[w] == r.value
    ensures r.None? ==> !Done(store.disk, w)
    ensures store.calls >= old(store.calls) && store.writes > old(store.writes)
    ensures
      var made := if store.ctx.plan[w].kind == Correspondence then 1 else store.calls - old(store.calls);
      if r.Some? then store.manifest == old(store.manifest)[w := Completed(made)]
      else if !Produces(store.ctx, w, client, old(store.calls), repairAttempts, results)
      then store.manifest == old(store.manifest)[w := Failed(AttemptsSoFar(old(store.manifest), w) + made)]
      else if store.fault(old(store.writes)) then store.manifest == old(store.manifest)[w := Failed(AttemptsSoFar(old(store.manifest), w) + 1)]
      else store.manifest == old(store.manifest)[w := Failed(made + 1)]
    ensures
      && store.ctx.plan[w].kind != Correspondence && repairAttempts >= 0
      && AllRefused(store.ctx, w, client, old(store.calls), repairAttempts + 1, results) ==>
      r.None? && store.calls == old(store.calls) + repairAttempts + 1
    ensures r.None? <==> Breaks(store.ctx, store.fault, w, client, repairAttempts, results, old(store.calls), old(store.writes))
    ensures OnlyFinishes(old(store.disk), store.disk, w)
    ensures r.Some? ==> ClientCalls(store.events) == ClientCalls(old(store.events)) + receipts
    ensures ClientCalls(store.events) <= ClientCalls(old(store.events)) +
      (if Generative(store.ctx.plan[w].kind) then Attempts(repairAttempts) else 0)
  {
    var attempts;
    r, receipts, attempts := Produce(store, w, results, client, repairAttempts);
    if r.Some? {
      ValidatedIsSettled(store.ctx, store.disk, w, r.value, results);
      var ok := store.RecordSuccess(w, r.value, if store.ctx.plan[w].kind == Correspondence then 1 else receipts);
      if ok {
        return;
      }
      attempts := 1;
      r := None;
    }
    var _ := store.RecordFailure(w, attempts);
  }

  // --- a run -----------------------------------------------------------------------------------------

  /** How much of the selection still needs the client. */
  function Pending(plan: Index, selected: seq<Id>, d: Disk): nat {
    if selected == [] then 0
    else (if IsGenerative(plan, selected[0]) && !Done(d, selected[0]) then 1 else 0) + Pending(plan, selected[1..], d)
  }

  predicate IsGenerative(plan: Index, w: Id) {
    w in plan && Generative(plan[w].kind)
  }

  lemma {:induction false} PendingFalls(plan: Index, selected: seq<Id>, d: Disk, later: Disk)
    requires Keeps(d, later)
    ensures Pending(plan, selected, later) <= Pending(plan, selected, d)
  {
    if selected != [] {
      PendingFalls(plan, selected[1..], d, later);
    }
  }

  lemma {:induction false} PendingNone(plan: Index, selected: seq<Id>, d: Disk)
    ensures Pending(plan, selected, d) == 0 <==> forall w :: w in selected && IsGenerative(plan, w) ==> Done(d, w)
  {
    if selected != [] {
      PendingNone(plan, selected[1..], d);
      assert selected == [selected[0]] + selected[1..];
    }
  }

  /** The turns of the selection whose work needs the client and is not finished. */
  lemma {:induction false} PendingCounts(plan: Index, selected: seq<Id>, d: Disk)
    ensures Pending(plan, selected, d) == |set i: nat | i < |selected| && NeedsClient(plan, d, selected[i])|
    decreases |selected|
  {
    var turns := set i: nat | i < |selected| && NeedsClient(plan, d, selected[i]);
    if selected == [] {
      assert turns == {};
    } else {
      var rest := set i: nat | i < |selected[1..]| && NeedsClient(plan, d, selected[1..][i]);
      PendingCounts(plan, selected[1..], d);
      ShiftedSize(rest);
      forall i: nat ensures i in turns <==> (i == 0 && NeedsClient(plan, d, selected[0])) || i in Shifted(rest) {
        if i > 0 {
          assert i - 1 in rest <==> i in turns;
          assert i - 1 in rest <==> i in Shifted(rest);
        }
      }
      assert 0 !in Shifted(rest);
      assert turns == if NeedsClient(plan, d, selected[0]) then {0} + Shifted(rest) else Shifted(rest);
    }
  }

  ghost predicate NeedsClient(plan: Index, d: Disk, w: Id) {
    w in plan && plan[w].kind != Correspondence && !Done(d, w)
  }

  ghost function Shifted(s: set<nat>): set<nat> {
    set i: nat | i in s :: i + 1
  }

  lemma {:induction false} ShiftedSize(s: set<nat>)
    ensures |Shifted(s)| == |s|
    decreases |s|
  {
    if s != {} {
      var x :| x in s;
      ShiftedSize(s - {x});
      forall i ensures i in Shifted(s) <==> i in Shifted(s - {x}) || i == x + 1 {
        assert i > 0 ==> (i - 1 in s <==> i - 1 in s - {x} || i - 1 == x);
      }
      assert Shifted(s) == Shifted(s - {x}) + {x + 1};
    }
  }

  /** `pending_generations`, counted with the manifest in memory. */
  method CountPending(store: ExecutionStore, selected: seq<Id>) returns (pending: nat)
    requires store.Valid() && store.Synced()
    ensures pending == Pending(store.ctx.plan, selected, store.disk)
  {
    pending := 0;
    var k := |selected|;
    while k > 0
      invariant 0 <= k <= |selected| && pending == Pending(store.ctx.plan, selected[k..], store.disk)
    {
      k := k - 1;
      store.CompletedIsDone(selected[k]);
      if IsGenerative(store.ctx.plan, selected[k]) && !store.IsCompleted(selected[k]) {
        pending := pending + 1;
      }
      assert selected[k..][1..] == selected[k + 1..];
    }
    assert selected[0..] == selected;
  }

  datatype Limits = Limits(maxWorkItems: int, maxClientCalls: int, repairAttempts: int)

  /** The state between two work items of a run. */
  ghost predicate Progress(ctx: Context, start: Disk, d: Disk, selected: seq<Id>, i: nat, results: map<Id, WorkResult>) {
    && i <= |selected| && Keeps(start, d) && Gathered(d, results)
    && (forall w :: w in results <==> w in selected[..i])
    && (forall w :: Done(d, w) ==> Done(start, w) || w in selected[..i])
  }

  lemma ProgressOne(ctx: Context, start: Disk, d: Disk, later: Disk, selected: seq<Id>, i: nat, results: map<Id, WorkResult>, r: WorkResult)
    requires i < |selected| && Progress(ctx, start, d, selected, i, results)
    requires Keeps(d, later) && Done(later, selected[i]) && later.files[selected[i]] == r && OnlyFinishes(d, later, selected[i])
    ensures Progress(ctx, start, later, selected, i + 1, results[selected[i] := r])
  {
    assert selected[..i + 1] == selected[..i] + [selected[i]];
  }

  /** What is finished when its turn comes was finished before the run or by an earlier turn. */
  ghost predicate Resumes(first: Disk, selected: seq<Id>, i: nat)
    requires i < |selected|
  {
    Done(first, selected[i]) || selected[i] in selected[..i]
  }

  ghost function ResumedBelow(first: Disk, selected: seq<Id>, n: nat): (r: nat)
    requires n <= |selected|
    ensures r <= n
  {
    if n == 0 then 0 else ResumedBelow(first, selected, n - 1) + (if Resumes(first, selected, n - 1) then 1 else 0)
  }

  /** The correspondences among the turns that do not resume. */
  ghost function LocalBelow(plan: Index, first: Disk, selected: seq<Id>, n: nat): nat
    requires n <= |selected| && forall w :: w in selected ==> w in plan
  {
    if n == 0 then 0
    else
      LocalBelow(plan, first, selected, n - 1) +
      (if !Resumes(first, selected, n - 1) && plan[selected[n - 1]].kind == Correspondence then 1 else 0)
  }

  /** What a finished run reports: every turn resumed, or done locally or by the client's accepted calls. */
  ghost predicate Counted(plan: Index, first: Disk, selected: seq<Id>, n: nat, events: seq<Event>, summary: Summary)
    requires n <= |selected| && forall w :: w in selected ==> w in plan
  {
    && summary.resumed == ResumedBelow(first, selected, n) && summary.completedNow == n - summary.resumed
    && summary.localCalls == LocalBelow(plan, first, selected, n) && summary.clientCalls == ClientCalls(events)
  }

  lemma {:induction false} AllResume(plan: Index, first: Disk, selected: seq<Id>, n: nat)
    requires n <= |selected| && (forall w :: w in selected ==> w in plan) && forall w :: w in selected ==> Done(first, w)
    ensures ResumedBelow(first, selected, n) == n && LocalBelow(plan, first, selected, n) == 0
  {
    if n > 0 {
      AllResume(plan, first, selected, n - 1);
      assert selected[n - 1] in selected;
    }
  }

  /** Work found completed: its stored result is loaded and validated again, which cannot fail. */
  method Resume(store: ExecutionStore, w: Id, results: map<Id, WorkResult>) returns (r: Result<WorkResult, RunError>)
    requires store.Valid() && store.Synced() && Done(store.disk, w) && Gathered(store.disk, results)
    ensures r == Ok(store.disk.files[w])
  {
    var loaded := store.disk.files[w];
    assert forall k :: k in results ==> Marked(store.disk, k) && results[k] == store.disk.files[k];
    SettledValidates(store.ctx, store.disk, w, NeighborhoodPriors(results));
    if loaded.workId != w {
      return Err(MismatchedResult);
    }
    if !Validates(store.ctx, loaded, NeighborhoodPriors(results)) {
      return Err(InvalidResumedResult);
    }
    return Ok(loaded);
  }

  /** Results a run can have gathered before the turn of `w`: of all its dependencies, the syntheses among them valid. */
  ghost predicate Presentable(ctx: Context, w: Id, results: map<Id, WorkResult>) {
    && PriorsValid(ctx, NeighborhoodPriors(results))
    && w in ctx.plan && forall dep :: dep in ctx.plan[w].dependsOn ==> dep in results
  }

  /** A turn that failed: its work is unfinished, and with the results of the turns before it, it breaks. */
  ghost predicate BrokenTurn(store: ExecutionStore, selected: seq<Id>, client: Option<Client>, repairAttempts: int)
    reads store
  {
    exists i: nat, results, calls: nat, writes: nat ::
      && i < |selected| && !Done(store.disk, selected[i])
      && Gathered(store.disk, results) && (forall w :: w in results <==> w in selected[..i])
      && calls <= store.calls && writes < store.writes && Presentable(store.ctx, selected[i], results)
      && Breaks(store.ctx, store.fault, selected[i], Asked(client), repairAttempts, results, calls, writes)
  }

  lemma GatheredIsPresentable(ctx: Context, d: Disk, w: Id, results: map<Id, WorkResult>)
    requires Consistent(ctx, d) && Gathered(d, results) && w in ctx.plan && !Missing(ctx.plan[w].dependsOn, results)
    ensures Presentable(ctx, w, results)
  {
    forall k | k in results ensures results[k].workId == k && OwnChecks(ctx, results[k]) {
      assert Marked(d, k);
    }
  }

  /** Whatever was gathered before, each selected item gives a result that validates. */
  ghost predicate Obliging(ctx: Context, selected: seq<Id>, client: Option<Client>, repairAttempts: int) {
    forall w, results, calls: nat :: w in selected && Presentable(ctx, w, results) ==>
      Produces(ctx, w, Asked(client), calls, repairAttempts, results)
  }

  /** Without a client nothing is asked; a call would raise. */
  function Asked(client: Option<Client>): Client {
    if client.Some? then client.value else (w, results, n) => Raises
  }

  lemma ObligingNeverBreaks(store: ExecutionStore, selected: seq<Id>, client: Option<Client>, repairAttempts: int)
    requires Obliging(store.ctx, selected, client, repairAttempts) && forall n :: !store.fault(n)
    ensures !BrokenTurn(store, selected, client, repairAttempts)
  {
  }

  /** Own-valid replies that refer to no other result oblige, whatever else a run has gathered. */
  lemma PlainRepliesOblige(ctx: Context, selected: seq<Id>, answer: Id -> WorkResult, repairAttempts: nat)
    requires forall w :: w in selected && w in ctx.plan ==>
      if ctx.plan[w].kind == Correspondence then Validates(ctx, ctx.local(ctx.plan[w]).(workId := w), map[])
      else answer(w).schema == ctx.plan[w].kind && ctx.ownValid(ctx.plan[w], answer(w).(workId := w)) && answer(w).refs == {}
    ensures Obliging(ctx, selected, Some((w, results, n) => Sends(answer(w))), repairAttempts)
  {
    var client: Client := (w, results, n) => Sends(answer(w));
    forall w, results, calls: nat | w in selected && Presentable(ctx, w, results)
      ensures Produces(ctx, w, client, calls, repairAttempts, results)
    {
      AnsweredAfter(ctx, w, client, calls, Attempts(repairAttempts), 0, results);
    }
  }

  /** What the loop over the selection keeps: the calls spent and those still possible stay within budget. */
  ghost predicate Running(store: ExecutionStore, before: nat, first: Disk, selected: seq<Id>, i: nat, results: map<Id, WorkResult>, budget: nat)
    reads store
  {
    && store.Valid() && store.Synced() && i <= |selected|
    && Progress(store.ctx, first, store.disk, selected, i, results)
    && WithinBudget(ClientCalls(store.events) - before, Pending(store.ctx.plan, selected[i..], store.disk), Pending(store.ctx.plan, selected, first), budget)
  }

  ghost predicate WithinBudget(spent: int, left: nat, total: nat, budget: nat) {
    spent + left * budget <= total * budget
  }

  lemma SpendOne(spent: int, now: int, left: nat, rest: nat, total: nat, budget: nat, asks: bool)
    requires WithinBudget(spent, left, total, budget)
    requires now <= spent + (if asks then budget else 0)
    requires rest + (if asks then 1 else 0) <= left
    ensures WithinBudget(now, rest, total, budget)
  {
    var used := if asks then 1 else 0;
    assert (rest + used) * budget <= left * budget;
    assert (rest + used) * budget == rest * budget + used * budget;
  }

  /** The turn of unfinished work spends at most one budget, and then only on generative work. */
  lemma SpendTurn(plan: Index, selected: seq<Id>, i: nat, was: Disk, now: Disk, spent: int, later: int, total: nat, budget: nat)
    requires i < |selected| && Keeps(was, now) && !Done(was, selected[i])
    requires WithinBudget(spent, Pending(plan, selected[i..], was), total, budget)
    requires later <= spent + (if IsGenerative(plan, selected[i]) then budget else 0)
    ensures WithinBudget(later, Pending(plan, selected[i + 1..], now), total, budget) && later <= total * budget
  {
    assert selected[i..] == [selected[i]] + selected[i + 1..];
    PendingFalls(plan, selected[i + 1..], was, now);
    SpendOne(spent, later, Pending(plan, selected[i..], was), Pending(plan, selected[i + 1..], now), total, budget, IsGenerative(plan, selected[i]));
  }

  /** One turn of the loop: resume, refuse for a missing dependency, or run. */
  method Turn(store: ExecutionStore, selected: seq<Id>, i: nat, results: map<Id, WorkResult>, client: Option<Client>,
              repairAttempts: int, ghost before: nat, ghost first: Disk)
    returns (error: Option<RunError>, after: map<Id, WorkResult>, resumed: bool, receipts: nat)
    requires Running(store, before, first, selected, i, results, Attempts(repairAttempts)) && i < |selected|
    requires forall w :: w in selected ==> w in store.ctx.plan
    requires client.None? ==> Pending(store.ctx.plan, selected, first) == 0
    modifies store
    ensures store.Valid() && Keeps(old(store.disk), store.disk)
    ensures error.None? ==> Running(store, before, first, selected, i + 1, after, Attempts(repairAttempts))
    ensures error.Some? ==> ClientCalls(store.events) - before <= Pending(store.ctx.plan, selected, first) * Attempts(repairAttempts)
    ensures error.Some? ==> error.value == MissingDependency || error.value == WorkFailed
    ensures error == Some(MissingDependency) ==> exists d :: DependsOn(store.ctx.plan, selected[i], d) && d !in selected[..i]
    ensures error == Some(WorkFailed) ==> BrokenTurn(store, selected, client, repairAttempts)
    ensures resumed <==> Resumes(first, selected, i)
    ensures resumed ==> error.None? && receipts == 0 && store.disk == old(store.disk) && store.events == old(store.events)
    ensures error.None? ==> ClientCalls(store.events) == ClientCalls(old(store.events)) + receipts
  {
    var w := selected[i];
    assert w in selected;
    store.CompletedIsDone(w);
    resumed := store.IsCompleted(w);
    if resumed {
      var loaded := Resume(store, w, results);
      after, receipts, error := results[w := loaded.value], 0, None;
      assert selected[i..] == [w] + selected[i + 1..];
      ProgressOne(store.ctx, first, store.disk, store.disk, selected, i, results, loaded.value);
    } else {
      error, after, receipts := TurnWork(store, selected, i, results, client, repairAttempts, before, first);
    }
  }

  predicate Missing(dependsOn: seq<Id>, results: map<Id, WorkResult>) {
    exists d :: d in dependsOn && d !in results
  }

  lemma MissingIsUnselected(ctx: Context, first: Disk, d: Disk, selected: seq<Id>, i: nat, results: map<Id, WorkResult>)
    requires i < |selected| && Progress(ctx, first, d, selected, i, results) && selected[i] in ctx.plan
    requires Missing(ctx.plan[selected[i]].dependsOn, results)
    ensures exists d :: DependsOn(ctx.plan, selected[i], d) && d !in selected[..i]
  {
    var dep :| dep in ctx.plan[selected[i]].dependsOn && dep !in results;
    assert DependsOn(ctx.plan, selected[i], dep);
  }

  /** The turn of work that is not finished yet. */
  method TurnWork(store: ExecutionStore, selected: seq<Id>, i: nat, results: map<Id, WorkResult>, client: Option<Client>,
                  repairAttempts: int, ghost before: nat, ghost first: Disk)
    returns (error: Option<RunError>, after: map<Id, WorkResult>, receipts: nat)
    requires Running(store, before, first, selected, i, results, Attempts(repairAttempts)) && i < |selected|
    requires selected[i] in store.ctx.plan && !Done(store.disk, selected[i])
    requires client.None? ==> Pending(store.ctx.plan, selected, first) == 0
    modifies store
    ensures store.Valid() && Keeps(old(store.disk), store.disk)
    ensures error.None? ==> Running(store, before, first, selected, i + 1, after, Attempts(repairAttempts))
    ensures error.Some? ==> ClientCalls(store.events) - before <= Pending(store.ctx.plan, selected, first) * Attempts(repairAttempts)
    ensures error.Some? ==> error.value == MissingDependency || error.value == WorkFailed
    ensures error == Some(MissingDependency) ==> exists d :: DependsOn(store.ctx.plan, selected[i], d) && d !in selected[..i]
    ensures error == Some(WorkFailed) ==> BrokenTurn(store, selected, client, repairAttempts)
    ensures error.None? ==> ClientCalls(store.events) == ClientCalls(old(store.events)) + receipts
  {
    var w := selected[i];
    var plan := store.ctx.plan;
    after, receipts := results, 0;
    ghost var spent := ClientCalls(store.events) - before;
    ghost var total := Pending(plan, selected, first);
    if Missing(plan[w].dependsOn, results) {
      MissingIsUnselected(store.ctx, first, store.disk, selected, i, results);
      SpendTurn(plan, selected, i, store.disk, store.disk, spent, spent, total, Attempts(repairAttempts));
      return Some(MissingDependency), after, receipts;
    }
    PendingNone(plan, selected, first);
    assert client.None? ==> !IsGenerative(plan, w) by {
      assert w in selected && !Done(first, w);
    }
    ghost var was := store.disk;
    ghost var calls, writes := store.calls, store.writes;
    var r;
    r, receipts := RunWork(store, w, results, Asked(client), repairAttempts);
    SpendTurn(plan, selected, i, was, store.disk, spent, ClientCalls(store.events) - before, total, Attempts(repairAttempts));
    if r.None? {
      GatheredIsPresentable(store.ctx, was, w, results);
      return Some(WorkFailed), after, receipts;
    }
    ProgressOne(store.ctx, first, was, store.disk, selected, i, results, r.value);
    after := results[w := r.value];
    error := None;
  }

  /** The checks a run makes after opening the store and before any work. */
  method Admit(store: ExecutionStore, selected: seq<Id>, client: Option<Client>, limits: Limits) returns (error: Option<RunError>)
    requires store.Valid() && store.Synced()
    ensures error.None? <==>
      && Pending(store.ctx.plan, selected, store.disk) <= limits.maxClientCalls
      && (client.None? ==> Pending(store.ctx.plan, selected, store.disk) == 0)
    ensures error.Some? ==> error.value == TooManyCalls || error.value == ClientRequired
  {
    var pending := CountPending(store, selected);
    if pending > limits.maxClientCalls {
      return Some(TooManyCalls);
    }
    if pending > 0 && client.None? {
      return Some(ClientRequired);
    }
    return None;
  }

  /**
   One run over a selection. However it ends the trace is safe; it never trips over a stored
   result, and asks the client at most `repairAttempts + 1` times per admitted call. A run
   that finishes leaves the whole selection finished, and a run over finished work resumes
   all of it without touching the disk or the client.
   */
  method ExecutePlan(store: ExecutionStore, selected: seq<Id>, client: Option<Client>, limits: Limits)
    returns (r: Result<Summary, RunError>)
    requires store.Valid() && store.events == []
    modifies store
    ensures store.Valid() && Keeps(old(store.disk), store.disk)
    ensures r.Ok? ==> |selected| <= limits.maxWorkItems && forall w :: w in selected ==> w in store.ctx.plan && Done(store.disk, w)
    ensures r.Ok? ==> Counted(store.ctx.plan, old(store.disk), selected, |selected|, store.events, r.value)
    ensures r.Ok? ==> store.disk.manifest.Some?
    ensures r != Err(MismatchedResult) && r != Err(InvalidResumedResult)
    ensures DepsFirst(store.ctx.plan, selected) ==> r != Err(MissingDependency)
    ensures r.Ok? || r == Err(MissingDependency) || r == Err(WorkFailed) <==>
            Admissible(store.ctx.plan, old(store.disk), selected, client, limits, store.fault(old(store.writes)))
    ensures r == Err(WorkFailed) ==> BrokenTurn(store, selected, client, limits.repairAttempts)
    ensures
      Admissible(store.ctx.plan, old(store.disk), selected, client, limits, store.fault(old(store.writes))) &&
      DepsFirst(store.ctx.plan, selected) && Obliging(store.ctx, selected, client, limits.repairAttempts) && (forall n :: !store.fault(n)) ==>
      r.Ok?
    ensures ClientCalls(store.events) <= (if limits.maxClientCalls > 0 then limits.maxClientCalls else 0) * Attempts(limits.repairAttempts)
    ensures ClientCalls(store.events) <= (if limits.maxClientCalls > 0 && limits.repairAttempts >= 0 then limits.maxClientCalls * (limits.repairAttempts + 1) else 0)
    ensures AlreadyFinished(store.ctx, old(store.disk), selected, limits) ==>
            r == Ok(Summary(0, |selected|, 0, 0)) && store.events == [] && store.disk == old(store.disk)
  {
    BudgetNonNegative(limits);
    var refused := Begin(store, selected, client, limits);
    PendingNone(store.ctx.plan, selected, old(store.disk));
    SamePending(store.ctx.plan, selected, old(store.disk), store.disk);
    if refused.Some? {
      return Err(refused.value);
    }
    ghost var found := store.disk;
    ghost var pending := Pending(store.ctx.plan, selected, found);
    r := RunAll(store, selected, client, limits.repairAttempts);
    BudgetCovers(pending, limits);
    if Obliging(store.ctx, selected, client, limits.repairAttempts) && forall n :: !store.fault(n) {
      ObligingNeverBreaks(store, selected, client, limits.repairAttempts);
    }
    if r.Ok? {
      SameCounts(store.ctx.plan, old(store.disk), found, selected, |selected|);
    }
    if AlreadyFinished(store.ctx, old(store.disk), selected, limits) {
      AllResume(store.ctx.plan, old(store.disk), selected, |selected|);
    }
  }

  /** Everything checked before the first work item, including opening the store. */
  method Begin(store: ExecutionStore, selected: seq<Id>, client: Option<Client>, limits: Limits) returns (refused: Option<RunError>)
    requires store.Valid() && store.events == []
    modifies store
    ensures store.Valid() && Keeps(old(store.disk), store.disk) && ClientCalls(store.events) == 0
    ensures SameFinished(old(store.disk), store.disk) && (refused.None? ==> store.Synced())
    ensures refused.None? <==> Admissible(store.ctx.plan, old(store.disk), selected, client, limits, store.fault(old(store.writes)))
    ensures refused == Some(UnknownWork) <==> exists w :: w in selected && w !in store.ctx.plan
    ensures refused.Some? ==> refused.value in {UnknownWork, TooManyItems, StoreFailed, TooManyCalls, ClientRequired}
    ensures old(store.disk).manifest.Some? ==> store.events == [] && store.disk == old(store.disk)
  {
    if exists w :: w in selected && w !in store.ctx.plan {
      return Some(UnknownWork);
    }
    if |selected| > limits.maxWorkItems {
      return Some(TooManyItems);
    }
    var ready := store.Open();
    NoCallsYet(store.events);
    if !ready {
      return Some(StoreFailed);
    }
    refused := Admit(store, selected, client, limits);
    SamePending(store.ctx.plan, selected, old(store.disk), store.disk);
  }

  /** Which runs are admitted: known work, within both limits, with a client if one is needed, and a store that opens. */
  ghost predicate Admissible(plan: Index, d: Disk, selected: seq<Id>, client: Option<Client>, limits: Limits, firstWriteFails: bool) {
    && (forall w :: w in selected ==> w in plan) && |selected| <= limits.maxWorkItems
    && (d.manifest.Some? || !firstWriteFails)
    && Pending(plan, selected, d) <= limits.maxClientCalls
    && (client.None? ==> Pending(plan, selected, d) == 0)
  }

  lemma {:induction false} SamePending(plan: Index, selected: seq<Id>, d: Disk, later: Disk)
    requires SameFinished(d, later)
    ensures Pending(plan, selected, later) == Pending(plan, selected, d)
  {
    if selected != [] {
      SamePending(plan, selected[1..], d, later);
    }
  }

  lemma {:induction false} SameCounts(plan: Index, d: Disk, later: Disk, selected: seq<Id>, n: nat)
    requires SameFinished(d, later) && n <= |selected| && forall w :: w in selected ==> w in plan
    ensures ResumedBelow(d, selected, n) == ResumedBelow(later, selected, n)
    ensures LocalBelow(plan, d, selected, n) == LocalBelow(plan, later, selected, n)
  {
    if n > 0 {
      SameCounts(plan, d, later, selected, n - 1);
    }
  }

  /** The whole selection is finished on disk and the limits admit an empty run. */
  ghost predicate AlreadyFinished(ctx: Context, d: Disk, selected: seq<Id>, limits: Limits) {
    && d.manifest.Some? && |selected| <= limits.maxWorkItems && limits.maxClientCalls >= 0
    && forall w :: w in selected ==> w in ctx.plan && Done(d, w)
  }

  lemma {:induction false} NoCallsYet(events: seq<Event>)
    requires forall e :: e in events ==> !e.Called?
    ensures ClientCalls(events) == 0
  {
    if events != [] {
      assert events[|events| - 1] in events;
      NoCallsYet(events[..|events| - 1]);
    }
  }

  lemma BudgetNonNegative(limits: Limits)
    ensures 0 <= (if limits.maxClientCalls > 0 then limits.maxClientCalls else 0) * Attempts(limits.repairAttempts)
  {
  }

  lemma BudgetCovers(pending: nat, limits: Limits)
    ensures pending <= limits.maxClientCalls ==>
      pending * Attempts(limits.repairAttempts) <= (if limits.maxClientCalls > 0 then limits.maxClientCalls else 0) * Attempts(limits.repairAttempts)
  {
  }

  /** The loop over an admitted selection. */
  method RunAll(store: ExecutionStore, selected: seq<Id>, client: Option<Client>, repairAttempts: int) returns (r: Result<Summary, RunError>)
    requires store.Valid() && store.Synced() && ClientCalls(store.events) == 0
    requires forall w :: w in selected ==> w in store.ctx.plan
    requires client.None? ==> Pending(store.ctx.plan, selected, store.disk) == 0
    modifies store
    ensures store.Valid() && Keeps(old(store.disk), store.disk)
    ensures r.Ok? ==> forall w :: w in selected ==> Done(store.disk, w)
    ensures r.Ok? ==> store.Synced() && Counted(store.ctx.plan, old(store.disk), selected, |selected|, store.events, r.value)
    ensures r.Err? ==> r.error == MissingDependency || r.error == WorkFailed
    ensures DepsFirst(store.ctx.plan, selected) ==> r != Err(MissingDependency)
    ensures r == Err(WorkFailed) ==> BrokenTurn(store, selected, client, repairAttempts)
    ensures ClientCalls(store.events) <= Pending(store.ctx.plan, selected, old(store.disk)) * Attempts(repairAttempts)
    ensures (forall w :: w in selected ==> old(Done(store.disk, w))) ==>
      r.Ok? && store.events == old(store.events) && store.disk == old(store.disk)
  {
    ghost var first := store.disk;
    var summary := Summary(0, 0, 0, 0);
    var results: map<Id, WorkResult> := map[];
    assert selected[0..] == selected;
    for i := 0 to |selected|
      invariant Running(store, 0, first, selected, i, results, Attempts(repairAttempts))
      invariant Counted(store.ctx.plan, first, selected, i, store.events, summary)
      invariant (forall w :: w in selected ==> Done(first, w)) ==> store.events == old(store.events) && store.disk == first
    {
      var error;
      error, results, summary := CountedTurn(store, selected, i, results, client, repairAttempts, summary, first);
      if error.Some? {
        return Err(error.value);
      }
    }
    assert selected[..|selected|] == selected;
    return Ok(summary);
  }

  /** One turn of the loop, with its counters. */
  method CountedTurn(store: ExecutionStore, selected: seq<Id>, i: nat, results: map<Id, WorkResult>, client: Option<Client>,
                     repairAttempts: int, summary: Summary, ghost first: Disk)
    returns (error: Option<RunError>, after: map<Id, WorkResult>, counted: Summary)
    requires Running(store, 0, first, selected, i, results, Attempts(repairAttempts)) && i < |selected|
    requires forall w :: w in selected ==> w in store.ctx.plan
    requires client.None? ==> Pending(store.ctx.plan, selected, first) == 0
    requires Counted(store.ctx.plan, first, selected, i, store.events, summary)
    modifies store
    ensures store.Valid() && Keeps(old(store.disk), store.disk)
    ensures error.None? ==> Running(store, 0, first, selected, i + 1, after, Attempts(repairAttempts))
    ensures error.None? ==> Counted(store.ctx.plan, first, selected, i + 1, store.events, counted)
    ensures error.Some? ==> ClientCalls(store.events) <= Pending(store.ctx.plan, selected, first) * Attempts(repairAttempts)
    ensures error.Some? ==> error.value == MissingDependency || error.value == WorkFailed
    ensures error == Some(MissingDependency) ==> exists d :: DependsOn(store.ctx.plan, selected[i], d) && d !in selected[..i]
    ensures error == Some(WorkFailed) ==> BrokenTurn(store, selected, client, repairAttempts)
    ensures Resumes(first, selected, i) ==> error.None? && store.disk == old(store.disk) && store.events == old(store.events)
  {
    assert selected[i] in selected;
    var resumed, receipts;
    error, after, resumed, receipts := Turn(store, selected, i, results, client, repairAttempts, 0, first);
    if resumed {
      counted := summary.(resumed := summary.resumed + 1);
    } else {
      counted := summary.(completedNow := summary.completedNow + 1, clientCalls := summary.clientCalls + receipts,
        localCalls := summary.localCalls + (if store.ctx.plan[selected[i]].kind == Correspondence then 1 else 0));
    }
  }

  /** A finished run followed by another over the same directory: everything resumes, nothing is asked. */
  method RunAgain(ctx: Context, disk: Disk, selected: seq<Id>, client: Client, limits: Limits, fault: nat -> bool, laterFault: nat -> bool)
    returns (first: Result<Summary, RunError>, second: Result<Summary, RunError>)
    requires Consistent(ctx, disk)
    ensures first.Ok? ==> second == Ok(Summary(0, |selected|, 0, 0))
  {
    var store := new ExecutionStore(ctx, disk, fault);
    first := ExecutePlan(store, selected, Some(client), limits);
    if first.Err? {
      return first, first;
    }
    var reopened := new ExecutionStore(ctx, store.disk, laterFault);
    second := ExecutePlan(reopened, selected, None, limits);
  }

  // --- runs one after the other, each cut short anywhere ---------------------------------------------------

  /** One run over the directory: what it selects and with what, and after how many events it is cut short. */
  datatype RunSpec = RunSpec(selected: seq<Id>, client: Option<Client>, limits: Limits, fault: nat -> bool, cut: nat)

  /** Whatever `w` is finished on a disk is neither asked for nor written in the trace. */
  ghost predicate LeavesAlone(d: Disk, trace: seq<Event>) {
    forall e :: e in trace ==> (e.Called? ==> !Done(d, e.w)) && (e.WroteResult? ==> !Done(d, e.w))
  }

  /** A run of the executor, cut short: the disk it leaves and the events that reached it. */
  method CutRun(ctx: Context, disk: Disk, run: RunSpec) returns (left: Disk, trace: seq<Event>)
    requires Consistent(ctx, disk)
    ensures SafeTrace(ctx, disk, trace) && left == Replay(disk, trace)
    ensures Consistent(ctx, left) && Keeps(disk, left) && LeavesAlone(disk, trace)
  {
    var store := new ExecutionStore(ctx, disk, run.fault);
    var _ := ExecutePlan(store, run.selected, run.client, run.limits);
    var k := if run.cut < |store.events| then run.cut else |store.events|;
    trace := store.events[..k];
    left := Replay(disk, trace);
    SafePrefix(ctx, disk, store.events, k);
    SafeTraceKeeps(ctx, disk, trace);
    SafeLeavesAlone(ctx, disk, trace);
  }

  lemma SafeLeavesAlone(ctx: Context, d: Disk, trace: seq<Event>)
    requires Consistent(ctx, d) && SafeTrace(ctx, d, trace)
    ensures LeavesAlone(d, trace)
  {
    forall e | e in trace ensures (e.Called? ==> !Done(d, e.w)) && (e.WroteResult? ==> !Done(d, e.w)) {
      var m :| 0 <= m < |trace| && trace[m] == e;
      NextIsSafe(ctx, d, trace, m);
      SafePrefix(ctx, d, trace, m);
      SafeTraceKeeps(ctx, d, trace[..m]);
    }
  }

  /**
   Any number of runs over one directory, each over its own selection with its own client and faults,
   each cut short after any number of events. What is finished after one run is finished with the
   same result after every later one, and no later run asks the client for it or writes it again.
   */
  method RunAcross(ctx: Context, start: Disk, runs: seq<RunSpec>) returns (disks: seq<Disk>, traces: seq<seq<Event>>)
    requires Consistent(ctx, start)
    ensures |disks| == |runs| + 1 && |traces| == |runs| && disks[0] == start
    ensures History(ctx, start, traces) && disks[|runs|] == Replay(start, Flatten(traces))
    ensures forall i, j :: 0 <= i <= j <= |runs| ==> Keeps(disks[i], disks[j])
    ensures forall i, j :: 0 <= i <= j < |runs| ==> LeavesAlone(disks[i], traces[j])
  {
    disks, traces := [start], [];
    for k := 0 to |runs|
      invariant |disks| == k + 1 && |traces| == k && disks[0] == start
      invariant Consistent(ctx, disks[k])
      invariant History(ctx, start, traces) && disks[k] == Replay(start, Flatten(traces))
      invariant forall i, j :: 0 <= i <= j <= k ==> Keeps(disks[i], disks[j])
      invariant forall i, j :: 0 <= i <= j < k ==> LeavesAlone(disks[i], traces[j])
    {
      var left, trace := CutRun(ctx, disks[k], runs[k]);
      HistoryMore(ctx, start, traces, trace);
      forall i | 0 <= i <= k ensures Keeps(disks[i], left) && LeavesAlone(disks[i], trace) {
        assert Keeps(disks[i], disks[k]);
        EarlierLeftAlone(disks[i], disks[k], trace);
      }
      disks, traces := disks + [left], traces + [trace];
    }
  }

  lemma EarlierLeftAlone(d: Disk, later: Disk, trace: seq<Event>)
    requires Keeps(d, later) && LeavesAlone(later, trace)
    ensures LeavesAlone(d, trace)
  {
  }

  lemma HistoryMore(ctx: Context, d: Disk, traces: seq<seq<Event>>, trace: seq<Event>)
    requires History(ctx, d, traces) && SafeTrace(ctx, Replay(d, Flatten(traces)), trace)
    ensures History(ctx, d, traces + [trace])
    ensures Replay(d, Flatten(traces + [trace])) == Replay(Replay(d, Flatten(traces)), trace)
  {
    assert (traces + [trace])[..|traces|] == traces;
    ReplayConcat(d, Flatten(traces), trace);
  }
}
