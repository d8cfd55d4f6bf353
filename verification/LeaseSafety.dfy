/** What holds over every run of the interleaved lease protocol. */
module LeaseSafety {
  import opened Common
  import opened LeaseLedger
  import opened LeaseCommits
  import opened LeaseProtocol
  import opened Resources
  import opened RunReports

  ghost predicate Run(states: seq<State>, steps: seq<Step>) {
    && |states| == |steps| + 1
    && forall i :: 0 <= i < |steps| ==> CanStep(states[i], steps[i]) && states[i + 1] == After(states[i], steps[i])
  }

  lemma {:induction false} RunKeepsInv(states: seq<State>, steps: seq<Step>, n: nat)
    requires Run(states, steps) && Inv(states[0]) && n < |states|
    ensures Inv(states[n])
  {
    if n > 0 {
      RunKeepsInv(states, steps, n - 1);
      StepKeepsInv(states[n - 1], steps[n - 1]);
    }
  }

  // From the empty start, every reachable file is the replay of a serial history, and loads.
  lemma RunsRefineSerialHistories(states: seq<State>, steps: seq<Step>, n: nat)
    requires Run(states, steps) && Init(states[0]) && n < |states|
    ensures Serial(states[n].log) && Replay(states[n].log) == states[n].file
    ensures ValidLeases(LeasesIn(states[n].file))
  {
    InitInv(states[0]);
    RunKeepsInv(states, steps, n);
  }

  // A process that gives up waiting, or that only observes, leaves ledger and history alone;
  // the ledger changes only in the hands of the lock holder, by one commit on its current content.
  lemma OnlyTheHolderCommits(s: State, step: Step)
    requires Inv(s) && CanStep(s, step)
    ensures After(s, step).file != s.file || After(s, step).log != s.log ==>
      && CommitOf(s, step).Some? && Actor(step).Some? && s.lock == Actor(step)
      && After(s, step).log == s.log + [CommitOf(s, step).value]
      && Enabled(s.file, CommitOf(s, step).value)
      && After(s, step).file == Apply(s.file, CommitOf(s, step).value)
    ensures step.TimeOut? ==>
      var t := After(s, step);
      t.file == s.file && t.log == s.log && t.lock == s.lock && t.world == s.world
  {
    StepIsAtomicCommit(s, step);
  }

  // A process that has unlocked, or given up, takes no further part.
  lemma DoneStaysDone(s: State, step: Step, p: nat)
    requires Inv(s) && CanStep(s, step) && p in s.procs && s.procs[p].phase.Done?
    ensures Actor(step) != Some(p)
    ensures p in After(s, step).procs && After(s, step).procs[p] == s.procs[p]
  {
    assert ProcessOk(s, p);
  }

  // ----- Budgets -----

  ghost predicate OperationWithin(op: Operation, capacity: Capacity) {
    op.Reserve? ==> op.r.request.capacity == capacity && !op.r.request.force
  }

  ghost predicate BudgetInv(s: State, capacity: Capacity) {
    && WithinBudgets(Totals(LeasesIn(s.file)), capacity)
    && forall p :: p in s.procs ==> OperationWithin(s.procs[p].op, capacity)
  }

  // A process keeps its operation; a new process brings the one it began with.
  lemma OperationIsKept(s: State, step: Step, p: nat)
    requires CanStep(s, step) && p in After(s, step).procs
    ensures p in s.procs ==> After(s, step).procs[p].op == s.procs[p].op
    ensures p !in s.procs ==> step.Begin? && After(s, step).procs[p].op == step.op
  {
  }

  lemma StepKeepsBudget(s: State, step: Step, capacity: Capacity)
    requires Inv(s) && CanStep(s, step) && BudgetInv(s, capacity)
    requires step.Begin? ==> OperationWithin(step.op, capacity)
    ensures BudgetInv(After(s, step), capacity)
  {
    StepIsAtomicCommit(s, step);
    forall p | p in After(s, step).procs
      ensures OperationWithin(After(s, step).procs[p].op, capacity)
    {
      OperationIsKept(s, step, p);
    }
    if CommitOf(s, step).Some? {
      assert OperationWithin(s.procs[step.p].op, capacity);
      CommitStaysWithinBudgets(s.file, CommitOf(s, step).value, capacity);
    }
  }

  // On a host of fixed capacity, with no forced request, no interleaving of any operations
  // reserves more than the lane limit or the exact percentages of memory, CPUs and disk.
  lemma {:induction false} RunsStayWithinBudgets(states: seq<State>, steps: seq<Step>, n: nat, capacity: Capacity)
    requires Run(states, steps) && Init(states[0]) && n < |states|
    requires forall i :: 0 <= i < |steps| && steps[i].Begin? ==> OperationWithin(steps[i].op, capacity)
    ensures BudgetInv(states[n], capacity)
  {
    if n > 0 {
      RunsStayWithinBudgets(states, steps, n - 1, capacity);
      InitInv(states[0]);
      RunKeepsInv(states, steps, n - 1);
      StepKeepsBudget(states[n - 1], steps[n - 1], capacity);
    }
  }

  lemma {:induction false} MemberWithinTotals(leases: seq<Lease>, l: Lease)
    requires l in leases
    ensures l.Amount().AtMost(Totals(leases))
  {
    var init, last := leases[..|leases| - 1], leases[|leases| - 1];
    if l != last {
      assert leases == init + [last];
      MemberWithinTotals(init, l);
    }
  }

  lemma ReplayStep(log: seq<Commit>, n: nat)
    requires n < |log|
    ensures Replay(log[..n + 1]) == Apply(Replay(log[..n]), log[n])
  {
    assert log[..n + 1][..n] == log[..n];
  }

  lemma CommitLeavesLease(file: LedgerFile, c: Commit, l: Lease)
    requires Loads(file) && Enabled(file, c) && l in LeasesIn(file) && !MayRemove(l, c)
    ensures l in LeasesIn(Apply(file, c))
  {
    CommitRemovesExactly(file, c, l);
  }

  lemma {:induction false} StaysTrue(holds: nat -> bool, i: nat, j: nat)
    requires i <= j && holds(i) && forall k :: i <= k < j && holds(k) ==> holds(k + 1)
    ensures holds(j)
  {
    if i < j {
      StaysTrue(holds, i, j - 1);
    }
  }

  function Presence(log: seq<Commit>, l: Lease): nat -> bool {
    (n: nat) => n <= |log| && l in LeasesIn(Replay(log[..n]))
  }

  // A lease stays through the part of a history that may not remove it.
  lemma StaysInHistory(log: seq<Commit>, l: Lease, i: nat, j: nat)
    requires Serial(log) && i <= j <= |log|
    requires l in LeasesIn(Replay(log[..i]))
    requires forall k :: i <= k < j ==> !MayRemove(l, log[k])
    ensures l in LeasesIn(Replay(log[..j]))
  {
    var present := Presence(log, l);
    assert present(i);
    forall k | i <= k < j && present(k)
      ensures present(k + 1)
    {
      StaysOnce(log, l, k);
    }
    StaysTrue(present, i, j);
  }

  lemma StaysOnce(log: seq<Commit>, l: Lease, n: nat)
    requires Serial(log) && n < |log| && Presence(log, l)(n) && !MayRemove(l, log[n])
    ensures Presence(log, l)(n + 1)
  {
    assert Enabled(Replay(log[..n]), log[n]);
    ReplayLoads(log, n);
    ReplayStep(log, n);
    CommitLeavesLease(Replay(log[..n]), log[n], l);
  }

  lemma {:induction false} ReplayLoads(log: seq<Commit>, n: nat)
    requires Serial(log) && n <= |log|
    ensures Loads(Replay(log[..n]))
  {
    if n > 0 {
      CommitSavesValidLedger(Replay(log[..n - 1]), log[n - 1]);
      ReplayStep(log, n - 1);
    }
  }

  // Of two unforced admissions in a history, the later one saw the lease of the earlier one
  // unless something entitled removed it: together they fit the budget the later was held to.
  lemma RacingReservesShareTheBudget(log: seq<Commit>, i: nat, j: nat)
    requires Serial(log) && i < j < |log|
    requires log[i].AdmitCommit? && log[j].AdmitCommit? && !log[j].r.request.force
    requires NewLease(log[i].r).Some? && forall k :: i < k < j ==> !MayRemove(NewLease(log[i].r).value, log[k])
    ensures NewLease(log[j].r).Some?
    ensures WithinBudgets(NewLease(log[i].r).value.Amount().Plus(NewLease(log[j].r).value.Amount()),
                          log[j].r.request.capacity)
  {
    var first := NewLease(log[i].r).value;
    assert Enabled(Replay(log[..i]), log[i]) && Enabled(Replay(log[..j]), log[j]);
    ReplayStep(log, i);
    AdmittedIsPresent(Replay(log[..i]), log[i].r);
    StaysInHistory(log, first, i + 1, j);
    AdmittedShareTheBudget(Replay(log[..j]), first, log[j].r);
  }

  lemma AdmittedIsPresent(file: LedgerFile, r: ReserveRequest)
    requires NewLease(r).Some?
    ensures NewLease(r).value in LeasesIn(Apply(file, AdmitCommit(r)))
  {
    AddedIsSaved(LeasesIn(file), NewLease(r).value);
  }

  lemma AddedIsSaved(leases: seq<Lease>, l: Lease)
    ensures l in LeasesIn(Saved(leases + [l]))
  {
    SortKeeps(leases + [l]);
    assert l in leases + [l];
  }

  lemma AdmittedShareTheBudget(file: LedgerFile, first: Lease, r: ReserveRequest)
    requires Enabled(file, AdmitCommit(r)) && !r.request.force && first in LeasesIn(file)
    ensures NewLease(r).Some?
    ensures WithinBudgets(first.Amount().Plus(NewLease(r).value.Amount()), r.request.capacity)
  {
    var all := LeasesIn(file) + [NewLease(r).value];
    MemberWithinTotals(LeasesIn(file), first);
    AdmissionStaysWithinBudgets(file, r);
    TotalsAppend(LeasesIn(file), NewLease(r).value);
    SortKeeps(all);
    WithinBudgetsIsMonotone(first.Amount().Plus(NewLease(r).value.Amount()), Totals(all), r.request.capacity);
  }

  // ----- Provenance -----

  lemma {:induction false} BecomesTrue(holds: nat -> bool, n: nat) returns (k: nat)
    requires !holds(0) && holds(n)
    ensures k < n && !holds(k) && holds(k + 1)
  {
    if holds(n - 1) {
      k := BecomesTrue(holds, n - 1);
    } else {
      k := n - 1;
    }
  }

  // Every lease in the ledger is the lease of an admission in its history, allowed on the
  // ledger of its moment.
  lemma EveryLeaseWasAdmitted(log: seq<Commit>, l: Lease) returns (k: nat)
    requires Serial(log) && l in LeasesIn(Replay(log))
    ensures k < |log| && log[k].AdmitCommit? && NewLease(log[k].r) == Some(l)
    ensures Enabled(Replay(log[..k]), log[k])
  {
    assert log[..|log|] == log && log[..0] == [];
    k := BecomesTrue(Presence(log, l), |log|);
    NewLeaseWasAdmitted(log, k, l);
  }

  lemma NewLeaseWasAdmitted(log: seq<Commit>, k: nat, l: Lease)
    requires Serial(log) && k < |log|
    requires l in LeasesIn(Replay(log[..k + 1])) && l !in LeasesIn(Replay(log[..k]))
    ensures log[k].AdmitCommit? && NewLease(log[k].r) == Some(l) && Enabled(Replay(log[..k]), log[k])
  {
    assert Enabled(Replay(log[..k]), log[k]);
    ReplayLoads(log, k);
    ReplayStep(log, k);
    CommitAddsOnlyAdmitted(Replay(log[..k]), log[k], l);
  }

  // ----- Evidence -----

  // What the report of a lease shows in a world, when making it durable succeeds.
  function ReportShows(w: World, l: Lease): Option<ReportState> {
    ReportStateOf(ReadOf(w, l.reportPath), true, l.id)
  }

  ghost predicate CleanupProven(worlds: seq<World>, since: nat, l: Lease) {
    exists at: nat :: since <= at < |worlds| && ReportShows(worlds[at], l) == Some(CleanupComplete)
  }

  ghost predicate ReportMissing(worlds: seq<World>, since: nat, at: nat, l: Lease) {
    since <= at < |worlds| && ReadOf(worlds[at], l.reportPath) == Absent
  }

  // First the report was missing, and later the owner was gone.
  ghost predicate AbandonedUnpublished(worlds: seq<World>, since: nat, l: Lease) {
    exists at: nat, later: nat ::
      ReportMissing(worlds, since, at, l) && at < later < |worlds| && !OwnerAlive(worlds[later], l)
  }

  ghost predicate RolledBack(worlds: seq<World>, since: nat, op: Operation, l: Lease) {
    && op.Rollback? && op.h.id == l.id && op.h.Matches(l)
    && exists at: nat :: ReportMissing(worlds, since, at, l)
  }

  // A lease leaves the ledger only on evidence gathered by the remover while it held the lock.
  lemma RemovalHasEvidence(s: State, step: Step, l: Lease)
    requires Inv(s) && CanStep(s, step) && !step.SaveClear?
    requires l in LeasesIn(s.file) && l !in LeasesIn(After(s, step).file)
    ensures Actor(step).Some? && step.p in s.procs && InSection(s.procs[step.p].phase)
    ensures
      var since, op := s.procs[step.p].phase.since, s.procs[step.p].op;
      || CleanupProven(s.past, since, l)
      || AbandonedUnpublished(s.past, since, l)
      || RolledBack(s.past, since, op, l)
  {
    StepIsAtomicCommit(s, step);
    var c := CommitOf(s, step).value;
    CommitRemovesExactly(s.file, c, l);
    assert ProcessOk(s, step.p);
    if step.SavePrune? {
      PruneHasEvidence(s, step, l);
    } else if step.SaveRemoval? {
      HandleHasEvidence(s, step, l);
    }
  }

  lemma PruneHasEvidence(s: State, step: Step, l: Lease)
    requires Inv(s) && CanStep(s, step) && step.SavePrune? && l in LeasesIn(s.file)
    requires MayRemove(l, CommitOf(s, step).value)
    ensures
      var since := s.procs[step.p].phase.since;
      CleanupProven(s.past, since, l) || AbandonedUnpublished(s.past, since, l)
  {
    assert ProcessOk(s, step.p);
    var ph := s.procs[step.p].phase;
    assert l in ph.loaded && l in ph.reports && l in ph.owners;
    var report, owner := ph.reports[l], ph.owners[l];
    assert ReadIsGenuine(s.past, ph.since, l.reportPath, report);
    assert OwnerIsGenuine(s.past, report.at, l, owner);
    if ReportStateOf(report.read, report.durable, l.id) == Some(CleanupComplete) {
      DurabilityOnlyConfirms(report.read, report.durable, l.id);
      assert ReportShows(s.past[report.at], l) == Some(CleanupComplete);
    } else {
      MissingMeansAbsent(report.read, report.durable, l.id);
      assert ReportMissing(s.past, ph.since, report.at, l);
      assert report.at < owner.at && !OwnerAlive(s.past[owner.at], l);
    }
  }

  lemma HandleHasEvidence(s: State, step: Step, l: Lease)
    requires Inv(s) && CanStep(s, step) && step.SaveRemoval? && l in LeasesIn(s.file)
    requires MayRemove(l, CommitOf(s, step).value)
    ensures
      var since, op := s.procs[step.p].phase.since, s.procs[step.p].op;
      CleanupProven(s.past, since, l) || RolledBack(s.past, since, op, l)
  {
    assert ProcessOk(s, step.p);
    var ph, op := s.procs[step.p].phase, s.procs[step.p].op;
    var report := ph.report;
    assert ReadIsGenuine(s.past, ph.since, op.h.reportPath, report);
    if op.Release? {
      DurabilityOnlyConfirms(report.read, report.durable, l.id);
      assert ReportShows(s.past[report.at], l) == Some(CleanupComplete);
    } else {
      MissingMeansAbsent(report.read, report.durable, l.id);
      assert ReportMissing(s.past, ph.since, report.at, l);
    }
  }

  lemma DurabilityOnlyConfirms(read: ReportRead, durable: bool, id: string)
    ensures ReportStateOf(read, durable, id) == Some(CleanupComplete) ==>
            ReportStateOf(read, true, id) == Some(CleanupComplete)
  {
  }

  lemma MissingMeansAbsent(read: ReportRead, durable: bool, id: string)
    ensures ReportStateOf(read, durable, id) == Some(MissingReport) <==> read == Absent
  {
  }

  // A report that shows complete cleanup is of a known kind, in a terminal status, and carries
  // the proof its kind requires.
  lemma ProvenReportIsTerminal(w: World, l: Lease)
    requires ReportShows(w, l) == Some(CleanupComplete)
    ensures
      var read := ReadOf(w, l.reportPath);
      && read.Found? && read.content.Document? && ParseReport(read.content.document).Some?
      && var report := ParseReport(read.content.document).value;
      && report.runId == l.id && !report.kind.UnknownKind? && report.status.IsTerminal()
      && (report.kind == EnvironmentBatch ==> BatchProof(read.content.document))
      && (report.kind == FlowFanout ==> FanoutProof(read.content.document))
      && (report.kind.Environment? || report.kind.Flow? || report.kind.ImageImport? ==> ChildProof(read.content.document))
  {
    var document := ReadOf(w, l.reportPath).content.document;
    var report := ParseReport(document).value;
    CompleteIsTerminal(document, report.kind, report.status);
  }
}
