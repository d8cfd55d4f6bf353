/**
 Which leases keep their capacity while their report stays published without proving cleanup:
 exactly those that no process has already found reason to remove.
 */
module LeaseRetention {
  import opened Common
  import opened LeaseLedger
  import opened LeaseCommits
  import opened LeaseProtocol
  import opened LeaseSafety
  import opened LeaseReachability
  import opened JsonValues
  import opened Paths
  import opened Resources
  import opened RunReports

  // The report is there, and does not prove complete cleanup.
  ghost predicate PublishedUnproven(w: World, l: Lease) {
    ReadOf(w, l.reportPath) != Absent && ReportShows(w, l) != Some(CleanupComplete)
  }

  // A prune has seen enough of the lease to drop it, unless it has yet to find the owner alive.
  predicate PruneDrops(l: Lease, reports: map<Lease, ReadAt>, owners: map<Lease, AliveAt>) {
    l in reports
    && var state := ReportStateOf(reports[l].read, reports[l].durable, l.id);
    || state == Some(CleanupComplete)
    || (state == Some(MissingReport) && (l in owners ==> !owners[l].alive))
  }

  // A release or rollback by the holder of the lease has found the report as it needs it.
  predicate HandleTakes(l: Lease, op: Operation, report: ReadAt) {
    && (op.Release? || op.Rollback?)
    && op.h.id == l.id && op.h.Matches(l)
    && ReportStateOf(report.read, report.durable, l.id) == Some(if op.Release? then CleanupComplete else MissingReport)
  }

  predicate WillRemove(process: Process, l: Lease) {
    match process.phase
    case Reading(_, _, reports, owners) =>
      (process.op.Reserve? || process.op.Reconcile?) && PruneDrops(l, reports, owners)
    case Checked(_, _, report) => HandleTakes(l, process.op, report)
    case _ => false
  }

  // Some process, which then holds the lock, is about to remove the lease.
  ghost predicate RemovalPending(s: State, l: Lease) {
    exists p :: p in s.procs && WillRemove(s.procs[p], l)
  }

  // ----- No removal out of nothing -----

  // While the report is published and unproven no observation gives reason to remove the lease.
  lemma ObservationGivesNoReason(s: State, step: Step, p: nat, l: Lease)
    requires CanStep(s, step) && PublishedUnproven(s.world, l)
    requires p in After(s, step).procs && WillRemove(After(s, step).procs[p], l)
    ensures p in s.procs && WillRemove(s.procs[p], l)
  {
    if Actor(step) != Some(p) {
      BystanderUnmoved(s, step, p);
    } else {
      match step {
        case ReadReport(_, _, durable) => UnprovenGivesNoReason(s.world, l, durable);
        case ReadHandleReport(_, durable) => UnprovenGivesNoReason(s.world, l, durable);
        case _ => OtherStepsGiveNoReason(s, step, l);
      }
    }
  }

  lemma BystanderUnmoved(s: State, step: Step, p: nat)
    requires CanStep(s, step) && p in After(s, step).procs && Actor(step) != Some(p)
    ensures p in s.procs && After(s, step).procs[p] == s.procs[p]
  {
  }

  lemma OtherStepsGiveNoReason(s: State, step: Step, l: Lease)
    requires CanStep(s, step) && Actor(step).Some? && !step.ReadReport? && !step.ReadHandleReport?
    requires step.p in After(s, step).procs && WillRemove(After(s, step).procs[step.p], l)
    ensures step.p in s.procs && WillRemove(s.procs[step.p], l)
  {
  }

  lemma UnprovenGivesNoReason(w: World, l: Lease, durable: bool)
    requires PublishedUnproven(w, l)
    ensures ReportStateOf(ReadOf(w, l.reportPath), durable, l.id) != Some(CleanupComplete)
    ensures ReportStateOf(ReadOf(w, l.reportPath), durable, l.id) != Some(MissingReport)
  {
    DurabilityOnlyConfirms(ReadOf(w, l.reportPath), durable, l.id);
    MissingMeansAbsent(ReadOf(w, l.reportPath), durable, l.id);
  }

  // A step other than a clear takes a lease out only if its process was about to.
  lemma RemoverWasPending(s: State, step: Step, l: Lease)
    requires Inv(s) && CanStep(s, step) && !step.SaveClear?
    requires l in LeasesIn(s.file) && l !in LeasesIn(After(s, step).file)
    ensures RemovalPending(s, l)
  {
    StepIsAtomicCommit(s, step);
    CommitRemovesExactly(s.file, CommitOf(s, step).value, l);
    assert ProcessOk(s, step.p);
    assert WillRemove(s.procs[step.p], l);
  }

  lemma StepRetains(s: State, step: Step, l: Lease)
    requires Inv(s) && CanStep(s, step) && !step.SaveClear?
    requires l in LeasesIn(s.file) && PublishedUnproven(s.world, l) && !RemovalPending(s, l)
    ensures l in LeasesIn(After(s, step).file) && !RemovalPending(After(s, step), l)
  {
    if l !in LeasesIn(After(s, step).file) {
      RemoverWasPending(s, step, l);
    }
    forall p | p in After(s, step).procs
      ensures !WillRemove(After(s, step).procs[p], l)
    {
      if WillRemove(After(s, step).procs[p], l) {
        ObservationGivesNoReason(s, step, p, l);
      }
    }
  }

  // The report stays published and unproven throughout, and nobody clears explicitly.
  ghost predicate StaysUnproven(states: seq<State>, steps: seq<Step>, l: Lease) {
    && (forall i :: 0 <= i < |states| ==> PublishedUnproven(states[i].world, l))
    && (forall i :: 0 <= i < |steps| ==> !steps[i].SaveClear?)
  }

  // The lease is in the ledger, and nobody is about to remove it.
  ghost predicate Safe(s: State, l: Lease) {
    Inv(s) && l in LeasesIn(s.file) && !RemovalPending(s, l)
  }

  ghost function SafeAt(states: seq<State>, l: Lease): nat -> bool {
    (n: nat) => n < |states| && Safe(states[n], l)
  }

  // A lease that nobody is about to remove keeps its place in the ledger for as long as its
  // report stays published without proving cleanup, whatever the processes do short of a clear.
  lemma UnprovenLeaseIsRetained(states: seq<State>, steps: seq<Step>, l: Lease, n: nat)
    requires Run(states, steps) && Inv(states[0]) && StaysUnproven(states, steps, l) && n < |states|
    requires l in LeasesIn(states[0].file) && !RemovalPending(states[0], l)
    ensures l in LeasesIn(states[n].file) && !RemovalPending(states[n], l)
  {
    var safe := SafeAt(states, l);
    assert Safe(states[0], l);
    forall k | 0 <= k < n && safe(k)
      ensures safe(k + 1)
    {
      SafeOnceMore(states, steps, l, k);
    }
    StaysTrue(safe, 0, n);
    assert Safe(states[n], l);
  }

  lemma SafeOnceMore(states: seq<State>, steps: seq<Step>, l: Lease, n: nat)
    requires Run(states, steps) && StaysUnproven(states, steps, l) && n < |steps| && Safe(states[n], l)
    ensures Safe(states[n + 1], l)
  {
    var s, step := states[n], steps[n];
    assert CanStep(s, step) && states[n + 1] == After(s, step);
    assert PublishedUnproven(s.world, l) && !step.SaveClear?;
    StepKeepsInv(s, step);
    StepRetains(s, step, l);
  }

  // While the lock is free nobody is about to remove anything.
  lemma FreeLockMeansNothingPending(s: State, l: Lease)
    requires Inv(s) && s.lock.None?
    ensures !RemovalPending(s, l)
  {
    forall p | p in s.procs
      ensures !WillRemove(s.procs[p], l)
    {
      assert ProcessOk(s, p);
    }
  }

  // ----- Nothing less would do -----

  // The next step of the remover takes the lease out.
  lemma RemovalTakesOut(s: State, step: Step, l: Lease)
    requires Inv(s) && CanStep(s, step) && l in LeasesIn(s.file)
    requires CommitOf(s, step).Some? && MayRemove(l, CommitOf(s, step).value)
    ensures l !in LeasesIn(After(s, step).file)
  {
    StepIsAtomicCommit(s, step);
    CommitRemovesExactly(s.file, CommitOf(s, step).value, l);
  }

  lemma CheckedHandleRemoves(s: State, p: nat, l: Lease)
    requires Inv(s) && l in LeasesIn(s.file)
    requires p in s.procs && s.procs[p].phase.Checked? && WillRemove(s.procs[p], l)
    ensures CanStep(s, SaveRemoval(p)) && l !in LeasesIn(After(s, SaveRemoval(p)).file)
  {
    assert ProcessOk(s, p);
    RemovalTakesOut(s, SaveRemoval(p), l);
  }

  // Once everything is observed, and the owner of the lease was seen or is gone, the prune drops it.
  lemma ObservedPruneRemoves(s: State, p: nat, l: Lease)
    requires Inv(s) && l in LeasesIn(s.file)
    requires p in s.procs && s.procs[p].phase.Reading? && WillRemove(s.procs[p], l) && AllObserved(s.procs[p].phase)
    ensures CanStep(s, SavePrune(p)) && l !in LeasesIn(After(s, SavePrune(p)).file)
  {
    assert ProcessOk(s, p);
    var phase := s.procs[p].phase;
    var view := ViewOf(phase.reports, phase.owners);
    assert Expired(l, view);
    FlatMapIsEmpty(Select(VerdictOf(view), Drop), phase.loaded);
    var i :| 0 <= i < |phase.loaded| && phase.loaded[i] == l;
    assert Select(VerdictOf(view), Drop)(phase.loaded[i]) == [l.id];
    RemovalTakesOut(s, SavePrune(p), l);
  }

  // Observing the rest while the owner is gone leaves the prune as resolved as it was.
  lemma StaysResolved(s: State, t: State, p: nat, l: Lease)
    requires SeenMore(s, t, p) && WillRemove(s.procs[p], l) && !OwnerAlive(s.world, l)
    ensures WillRemove(t.procs[p], l)
  {
  }

  function WithoutOwner(w: World, l: Lease): World {
    w.(processes := w.processes - {l.ownerPid})
  }

  // A lease that a process is about to remove can be lost while its report is published and
  // unproven: the owner ends, and the remover goes on.
  lemma PendingLeaseCanBeLost(s: State, l: Lease) returns (states: seq<State>, steps: seq<Step>)
    requires Inv(s) && l in LeasesIn(s.file) && PublishedUnproven(s.world, l) && RemovalPending(s, l)
    ensures Run(states, steps) && states[0] == s && StaysUnproven(states, steps, l)
    ensures l !in LeasesIn(states[|steps|].file)
  {
    var p :| p in s.procs && WillRemove(s.procs[p], l);
    if s.procs[p].phase.Checked? {
      states, steps := HandleGoesOn(s, p, l);
    } else {
      states, steps := OwnerEnds(s, p, l);
    }
  }

  lemma HandleGoesOn(s: State, p: nat, l: Lease) returns (states: seq<State>, steps: seq<Step>)
    requires Inv(s) && l in LeasesIn(s.file) && PublishedUnproven(s.world, l)
    requires p in s.procs && s.procs[p].phase.Checked? && WillRemove(s.procs[p], l)
    ensures Run(states, steps) && states[0] == s && StaysUnproven(states, steps, l)
    ensures l !in LeasesIn(states[|steps|].file)
  {
    CheckedHandleRemoves(s, p, l);
    OneStep(s, SaveRemoval(p));
    steps := [SaveRemoval(p)];
    states := LeadsIsRun(s, steps, After(s, SaveRemoval(p)));
  }

  lemma OwnerEnds(s: State, p: nat, l: Lease) returns (states: seq<State>, steps: seq<Step>)
    requires Inv(s) && l in LeasesIn(s.file) && PublishedUnproven(s.world, l)
    requires p in s.procs && s.procs[p].phase.Reading? && WillRemove(s.procs[p], l)
    ensures Run(states, steps) && states[0] == s && StaysUnproven(states, steps, l)
    ensures l !in LeasesIn(states[|steps|].file)
  {
    var step := Step.Environment(WithoutOwner(s.world, l));
    var ownerless := After(s, step);
    StepKeepsInv(s, step);
    var path, t := PrunerGoesOn(ownerless, p, l);
    var rest := LeadsIsRun(ownerless, path, t);
    assert PublishedUnproven(ownerless.world, l);
    RunPrepends(s, step, rest, path);
    UnprovenPrepends(s, step, rest, path, l);
    states, steps := [s] + rest, [step] + path;
  }

  lemma UnprovenPrepends(s: State, step: Step, states: seq<State>, steps: seq<Step>, l: Lease)
    requires PublishedUnproven(s.world, l) && !step.SaveClear? && StaysUnproven(states, steps, l)
    ensures StaysUnproven([s] + states, [step] + steps, l)
  {
  }

  lemma PrunerGoesOn(s: State, p: nat, l: Lease) returns (steps: seq<Step>, t: State)
    requires Inv(s) && l in LeasesIn(s.file) && !OwnerAlive(s.world, l)
    requires p in s.procs && s.procs[p].phase.Reading? && WillRemove(s.procs[p], l)
    ensures Leads(s, steps, t) && l !in LeasesIn(t.file)
  {
    assert ProcessOk(s, p);
    var observing, observed := ObservesTheRest(s, p, 0);
    LeadsKeepsInv(s, observing, observed);
    StaysResolved(s, observed, p, l);
    ObservedPruneRemoves(observed, p, l);
    t := After(observed, SavePrune(p));
    ThenStep(s, observing, observed, SavePrune(p));
    steps := observing + [SavePrune(p)];
  }

  // A lease with a published, unproven report is safe from everything short of a clear, for as
  // long as the report stays so, if and only if no process is already about to remove it.
  lemma RetainedIffNothingPending(s: State, l: Lease)
    requires Inv(s) && l in LeasesIn(s.file) && PublishedUnproven(s.world, l)
    ensures
      (forall states: seq<State>, steps: seq<Step> ::
         Run(states, steps) && states[0] == s && StaysUnproven(states, steps, l) ==> l in LeasesIn(states[|steps|].file))
      <==> !RemovalPending(s, l)
  {
    if RemovalPending(s, l) {
      var states, steps := PendingLeaseCanBeLost(s, l);
    } else {
      forall states: seq<State>, steps: seq<Step> | Run(states, steps) && states[0] == s && StaysUnproven(states, steps, l)
        ensures l in LeasesIn(states[|steps|].file)
      {
        UnprovenLeaseIsRetained(states, steps, l, |steps|);
      }
    }
  }

  // ----- A loss from the very start -----

  lemma {:induction false} BoundOf(ids: set<nat>) returns (bound: nat)
    ensures forall id :: id in ids ==> id < bound
  {
    if ids == {} {
      bound := 0;
    } else {
      var id :| id in ids;
      var rest := BoundOf(ids - {id});
      bound := if rest <= id then id + 1 else rest;
      assert forall other :: other in ids ==> other == id || other in ids - {id};
    }
  }

  lemma OnlyLeaseSaved(l: Lease)
    ensures LeasesIn(Saved([l])) == [l]
  {
    assert [l][..0] == [];
    assert InsertById(l, []) == [l];
    assert SortById([l]) == InsertById([l][0], SortById([l][..0]));
  }

  // No ledger yet, and no process of the protocol, in a world of reports and running processes.
  function StartIn(w: World): State {
    State(NoFile, None, map[], w, [], [])
  }

  lemma ReservesFirst(w: World, r: ReserveRequest) returns (steps: seq<Step>, t: State)
    requires Admissible([], r)
    ensures Leads(StartIn(w), steps, t) && t.lock.None? && t.world == w && Loads(t.file)
    ensures LeasesIn(t.file) == [NewLease(r).value]
  {
    CommitSavesValidLedger(NoFile, AdmitCommit(r));
    steps, t := ReservationGoesThrough(StartIn(w), 0, r);
    assert [] + [NewLease(r).value] == [NewLease(r).value];
    OnlyLeaseSaved(NewLease(r).value);
    WorldIsKept(StartIn(w), steps, t);
  }

  lemma ReadsMissingReport(s: State, p: nat, since: nat, l: Lease)
    requires p in s.procs && s.procs[p] == Process(Operation.Reconcile, Reading(since, [l], map[], map[]))
    requires ReadOf(s.world, l.reportPath) == Absent
    ensures CanStep(s, ReadReport(p, l, true)) && After(s, ReadReport(p, l, true)).file == s.file
    ensures p in After(s, ReadReport(p, l, true)).procs && WillRemove(After(s, ReadReport(p, l, true)).procs[p], l)
  {
    ReadsReport(s, p, 0);
  }

  // Reserve, then let another process prune as far as reading the report, which is missing yet.
  lemma PruneFindsNoReport(w: World, r: ReserveRequest) returns (steps: seq<Step>, t: State, p: nat)
    requires Admissible([], r) && ReadOf(w, r.reportPath) == Absent
    ensures Leads(StartIn(w), steps, t) && NewLease(r).value in LeasesIn(t.file)
    ensures p in t.procs && WillRemove(t.procs[p], NewLease(r).value)
  {
    var l := NewLease(r).value;
    var reserving, reserved := ReservesFirst(w, r);
    p := BoundOf(reserved.procs.Keys);
    var loading, loaded := EntersAndLoads(reserved, p, Operation.Reconcile);
    ReadsMissingReport(loaded, p, |reserved.past| + 1, l);
    t := After(loaded, ReadReport(p, l, true));
    LeadsOn(StartIn(w), reserving, reserved, loading, loaded);
    ThenStep(StartIn(w), reserving + loading, loaded, ReadReport(p, l, true));
    steps := reserving + loading + [ReadReport(p, l, true)];
  }

  lemma WorldIsKept(s: State, steps: seq<Step>, t: State)
    requires Leads(s, steps, t)
    ensures t.world == s.world
  {
    var states := LeadsIsRun(s, steps, t);
  }

  // The report appears; nothing else in the world changes.
  function Publishing(w: World, l: Lease, published: ReportRead): Step {
    Step.Environment(w.(reports := w.reports[l.reportPath := published]))
  }

  lemma LossAfterPublishing(s: State, p: nat, l: Lease, published: ReportRead) returns (states: seq<State>, steps: seq<Step>)
    requires Inv(s) && l in LeasesIn(s.file) && p in s.procs && WillRemove(s.procs[p], l)
    requires published != Absent && ReportStateOf(published, true, l.id) != Some(CleanupComplete)
    ensures Run(states, steps) && states[0] == After(s, Publishing(s.world, l, published)) && StaysUnproven(states, steps, l)
    ensures ReadOf(states[0].world, l.reportPath) == published && OwnerAlive(states[0].world, l) == OwnerAlive(s.world, l)
    ensures l in LeasesIn(states[0].file) && l !in LeasesIn(states[|steps|].file)
  {
    var t := After(s, Publishing(s.world, l, published));
    StepKeepsInv(s, Publishing(s.world, l, published));
    assert WillRemove(t.procs[p], l);
    states, steps := PendingLeaseCanBeLost(t, l);
  }

  ghost predicate NoClear(steps: seq<Step>) {
    forall i :: 0 <= i < |steps| ==> !steps[i].SaveClear?
  }

  lemma NoClearJoins(front: seq<Step>, step: Step, back: seq<Step>)
    requires NoClear(front) && !step.SaveClear? && NoClear(back)
    ensures NoClear(front + [step] + back)
  {
  }

  // The lease is recorded and its owner runs, at first without a report; then the report is
  // published while the owner still runs, and stays unproven while the lease is lost.
  ghost predicate LosesPublished(front: seq<State>, path: seq<Step>, back: seq<State>, rest: seq<Step>, l: Lease,
                                 published: ReportRead)
  {
    && Run(front + back, path + rest) && front != [] && Init(front[0]) && NoClear(path + rest)
    && (forall i :: 0 <= i < |front| ==> OwnerAlive(front[i].world, l) && ReadOf(front[i].world, l.reportPath) == Absent)
    && Run(back, rest) && StaysUnproven(back, rest, l)
    && OwnerAlive(back[0].world, l) && ReadOf(back[0].world, l.reportPath) == published
    && l in LeasesIn(back[0].file) && l !in LeasesIn(back[|rest|].file)
  }

  // For any request that an empty ledger admits, any world in which its owner runs, and any
  // report that does not prove cleanup, some run from the very start publishes the report while
  // the owner runs and, without any clear, then loses the lease while the report stays: the
  // prune read the report before it was published, and checked the owner after it had ended.
  lemma PublishedLeaseIsLost(w: World, r: ReserveRequest, published: ReportRead)
    returns (front: seq<State>, path: seq<Step>, back: seq<State>, rest: seq<Step>)
    requires Admissible([], r) && OwnerAlive(w, NewLease(r).value) && ReadOf(w, r.reportPath) == Absent
    requires published != Absent && ReportStateOf(published, true, r.id) != Some(CleanupComplete)
    ensures LosesPublished(front, path, back, rest, NewLease(r).value, published)
  {
    var l := NewLease(r).value;
    var reaching, reading, p := PruneFindsNoReport(w, r);
    assert Inv(StartIn(w));
    LeadsKeepsInv(StartIn(w), reaching, reading);
    WorldIsKept(StartIn(w), reaching, reading);
    front := LeadsIsRun(StartIn(w), reaching, reading);
    back, rest := LossAfterPublishing(reading, p, l, published);
    path := reaching + [Publishing(w, l, published)];
    RunsJoin(front, reaching, Publishing(w, l, published), back, rest);
    NoClearJoins(reaching, Publishing(w, l, published), rest);
  }

  // Such a request, its running owner, and such a report: one lane on a host of unknown
  // capacity, still running.
  const ONE_LANE := ReserveRequest("lane-1", Path(true, ["runs", "lane-1", "report.json"]), 7, Some("launcher"),
                                   Request(1, Profile(256, 1), 1, Capacity(None, None, None), false), 1)

  const LAUNCHER_RUNS := World(map[], map[7 := "launcher"])

  const RUNNING := Found(Document(Object(map[
    "run_id" := Str("lane-1"), "kind" := Str("environment"), "status" := Str("running")])))

  lemma OneLaneIsAdmissible()
    ensures Admissible([], ONE_LANE) && OwnerAlive(LAUNCHER_RUNS, NewLease(ONE_LANE).value)
  {
    assert ValidRunId("lane-1");
    AdmittedLeaseValidates([], ONE_LANE);
  }

  lemma RunningReportIsPending()
    ensures ReportStateOf(RUNNING, true, ONE_LANE.id) == Some(PendingReport)
  {
    var document := RUNNING.content.document;
    assert document.GetStr("run_id") == Some("lane-1");
    assert ParseReport(document).value.cleanup == Pending;
  }

  // The lease of a lane whose launcher runs and whose report says that it is running, lost
  // after the launcher ends.
  lemma RunningLaneIsLost() returns (front: seq<State>, path: seq<Step>, back: seq<State>, rest: seq<Step>)
    ensures LosesPublished(front, path, back, rest, NewLease(ONE_LANE).value, RUNNING)
  {
    OneLaneIsAdmissible();
    RunningReportIsPending();
    front, path, back, rest := PublishedLeaseIsLost(LAUNCHER_RUNS, ONE_LANE, RUNNING);
  }
}
