/** What a prune of the interleaved protocol has looked at, and in which order. */
module LeasePruning {
  import opened Common
  import opened LeaseLedger
  import opened LeaseProtocol
  import opened LeaseSafety

  // ----- Order -----

  // Of two leases, the earlier one's owner was checked before the later one's report was read.
  ghost predicate ObservedInOrder(phase: Phase) {
    phase.Reading? ==>
      forall i, j :: 0 <= i < j < |phase.loaded| && phase.loaded[j] in phase.reports ==>
        && phase.loaded[i] in phase.owners
        && phase.owners[phase.loaded[i]].at < phase.reports[phase.loaded[j]].at
  }

  ghost predicate AllInOrder(s: State) {
    forall p :: p in s.procs ==> ObservedInOrder(s.procs[p].phase)
  }

  lemma LoadedIsDistinct(s: State, p: nat)
    requires Inv(s) && p in s.procs && s.procs[p].phase.Reading?
    ensures
      var loaded := s.procs[p].phase.loaded;
      forall i, j :: 0 <= i < j < |loaded| ==> loaded[i] != loaded[j]
  {
    assert ProcessOk(s, p);
    assert ValidLeases(s.procs[p].phase.loaded);
  }

  lemma CheckKeepsOrder(s: State, step: Step)
    requires Inv(s) && AllInOrder(s) && CanStep(s, step) && step.CheckOwner?
    ensures ObservedInOrder(After(s, step).procs[step.p].phase)
  {
    var before := s.procs[step.p].phase;
    assert ObservedInOrder(before) && step.lease !in before.owners;
    assert After(s, step).procs[step.p].phase
        == before.(owners := before.owners[step.lease := AliveAt(OwnerAlive(s.world, step.lease), |s.past|)]);
  }

  // A report that is read next, later than the owners of all earlier leases were checked.
  lemma NextReadIsInOrder(phase: Phase, n: nat, read: ReadAt)
    requires phase.Reading? && ObservedInOrder(phase) && n < |phase.loaded|
    requires forall i, j :: 0 <= i < j < |phase.loaded| ==> phase.loaded[i] != phase.loaded[j]
    requires forall m :: 0 <= m < n ==> phase.loaded[m] in phase.owners && phase.owners[phase.loaded[m]].at < read.at
    ensures ObservedInOrder(phase.(reports := phase.reports[phase.loaded[n] := read]))
  {
  }

  lemma ReadKeepsOrder(s: State, step: Step)
    requires Inv(s) && AllInOrder(s) && CanStep(s, step) && step.ReadReport?
    ensures ObservedInOrder(After(s, step).procs[step.p].phase)
  {
    var before := s.procs[step.p].phase;
    assert ObservedInOrder(before) && ProcessOk(s, step.p);
    var n: nat :| n < |before.loaded| && before.loaded[n] == step.lease
                  && forall m :: 0 <= m < n ==> before.loaded[m] in before.owners;
    LoadedIsDistinct(s, step.p);
    OthersCheckedBefore(s, step.p, n);
    NextReadIsInOrder(before, n, ReadAt(ReadOf(s.world, step.lease.reportPath), step.durable, |s.past|));
    assert After(s, step).procs[step.p].phase == before.(reports := before.reports[step.lease :=
             ReadAt(ReadOf(s.world, step.lease.reportPath), step.durable, |s.past|)]);
  }

  lemma OthersCheckedBefore(s: State, p: nat, n: nat)
    requires Inv(s) && p in s.procs && s.procs[p].phase.Reading? && n < |s.procs[p].phase.loaded|
    requires forall m :: 0 <= m < n ==> s.procs[p].phase.loaded[m] in s.procs[p].phase.owners
    ensures
      var phase := s.procs[p].phase;
      forall m :: 0 <= m < n ==> phase.owners[phase.loaded[m]].at < |s.past|
  {
    assert ProcessOk(s, p);
    var phase := s.procs[p].phase;
    forall m | 0 <= m < n
      ensures phase.owners[phase.loaded[m]].at < |s.past|
    {
      var l := phase.loaded[m];
      assert OwnerIsGenuine(s.past, phase.reports[l].at, l, phase.owners[l]);
    }
  }

  // Any other step leaves the phase alone, or enters one without observations.
  lemma OthersObserveNothing(s: State, step: Step, p: nat)
    requires CanStep(s, step) && p in After(s, step).procs
    requires (step.ReadReport? || step.CheckOwner?) ==> step.p != p
    ensures
      var phase := After(s, step).procs[p].phase;
      || (p in s.procs && phase == s.procs[p].phase)
      || !phase.Reading?
      || phase.reports == map[]
  {
  }

  lemma ProcessKeepsOrder(s: State, step: Step, p: nat)
    requires Inv(s) && AllInOrder(s) && CanStep(s, step) && p in After(s, step).procs
    ensures ObservedInOrder(After(s, step).procs[p].phase)
  {
    if step.ReadReport? && step.p == p {
      ReadKeepsOrder(s, step);
    } else if step.CheckOwner? && step.p == p {
      CheckKeepsOrder(s, step);
    } else {
      OthersObserveNothing(s, step, p);
    }
  }

  lemma StepKeepsOrder(s: State, step: Step)
    requires Inv(s) && AllInOrder(s) && CanStep(s, step)
    ensures AllInOrder(After(s, step))
  {
    var t := After(s, step);
    forall p | p in t.procs
      ensures ObservedInOrder(t.procs[p].phase)
    {
      ProcessKeepsOrder(s, step, p);
    }
  }

  // In every run, each process goes through the leases in ledger order.
  lemma {:induction false} RunsObserveInOrder(states: seq<State>, steps: seq<Step>, n: nat)
    requires Run(states, steps) && Init(states[0]) && n < |states|
    ensures AllInOrder(states[n])
  {
    if n > 0 {
      RunsObserveInOrder(states, steps, n - 1);
      InitInv(states[0]);
      RunKeepsInv(states, steps, n - 1);
      StepKeepsOrder(states[n - 1], steps[n - 1]);
    }
  }

  // ----- Completeness -----

  // An observation is made once in a section: later steps keep it.
  lemma ObservationsStay(s: State, step: Step, p: nat, l: Lease)
    requires CanStep(s, step) && p in s.procs && s.procs[p].phase.Reading?
    requires After(s, step).procs[p].phase.Reading?
    ensures
      var before, after := s.procs[p].phase, After(s, step).procs[p].phase;
      && after.loaded == before.loaded && after.since == before.since
      && (l in before.reports ==> l in after.reports && after.reports[l] == before.reports[l])
      && (l in before.owners ==> l in after.owners && after.owners[l] == before.owners[l])
  {
  }

  // In these two worlds, the first of the report and the second of the owner, the lease may go.
  ghost predicate Finished(seen: World, durable: bool, later: World, l: Lease) {
    || (durable && ReportProves(ReadOf(seen, l.reportPath), l.id))
    || (ReadOf(seen, l.reportPath) == Absent && !OwnerAlive(later, l))
  }

  // Whether a prune saves or finds nothing to save, it has looked at the report and then at the
  // owner of every lease while it held the lock, and keeps a lease exactly if these allow no other.
  lemma PruneJudgesEveryLease(s: State, step: Step, l: Lease) returns (read: ReadAt, owner: AliveAt)
    requires Inv(s) && CanStep(s, step) && (step.SavePrune? || step.SkipPrune?) && l in LeasesIn(s.file)
    ensures s.procs[step.p].phase.Reading?
    ensures s.procs[step.p].phase.since <= read.at < owner.at < |s.past|
    ensures l in LeasesIn(After(s, step).file) <==> !Finished(s.past[read.at], read.durable, s.past[owner.at], l)
  {
    assert ProcessOk(s, step.p);
    var ph := s.procs[step.p].phase;
    var view := ViewOf(ph.reports, ph.owners);
    assert l in ph.reports && l in ph.owners;
    read, owner := ph.reports[l], ph.owners[l];
    assert ReadIsGenuine(s.past, ph.since, l.reportPath, read);
    assert OwnerIsGenuine(s.past, read.at, l, owner);
    ExpiredIff(l, view);
    PruneFindings(ph.loaded, view, l.id);
    if step.SavePrune? {
      PrunedMembers(ph.loaded, view, l);
      SortKeeps(Pruned(ph.loaded, view));
    }
  }

  // ----- Admissions come after a prune -----

  predicate Deciding(s: State, p: nat) {
    p in s.procs && s.procs[p].phase.Decided?
  }

  lemma BecomesDeciding(s: State, step: Step, p: nat)
    requires Inv(s) && CanStep(s, step) && !Deciding(s, p) && Deciding(After(s, step), p)
    ensures step == SavePrune(p) || step == SkipPrune(p)
    ensures s.lock == Some(p) && After(s, step).lock == Some(p)
  {
    assert p in s.procs && ProcessOk(s, p);
  }

  lemma StaysDeciding(s: State, step: Step, p: nat)
    requires Inv(s) && CanStep(s, step) && Deciding(s, p) && Deciding(After(s, step), p)
    ensures After(s, step).file == s.file
    ensures s.lock == Some(p) && After(s, step).lock == Some(p)
  {
    assert ProcessOk(s, p);
    StepKeepsInv(s, step);
    assert ProcessOk(After(s, step), p);
    StepIsAtomicCommit(s, step);
  }

  function DecidingAt(states: seq<State>, p: nat): nat -> bool {
    (n: nat) => n < |states| && Deciding(states[n], p)
  }

  lemma {:induction false} LastRise(holds: nat -> bool, n: nat) returns (k: nat)
    requires !holds(0) && holds(n)
    ensures k < n && !holds(k) && forall m :: k < m <= n ==> holds(m)
  {
    if holds(n - 1) {
      k := LastRise(holds, n - 1);
    } else {
      k := n - 1;
    }
  }

  lemma BecomesDecidingInRun(states: seq<State>, steps: seq<Step>, k: nat, p: nat)
    requires Run(states, steps) && Inv(states[0]) && k < |steps|
    requires !DecidingAt(states, p)(k) && DecidingAt(states, p)(k + 1)
    ensures steps[k] == SavePrune(p) || steps[k] == SkipPrune(p)
    ensures states[k].lock == Some(p) && states[k + 1].lock == Some(p)
  {
    RunKeepsInv(states, steps, k);
    assert CanStep(states[k], steps[k]);
    BecomesDeciding(states[k], steps[k], p);
  }

  lemma StaysDecidingInRun(states: seq<State>, steps: seq<Step>, k: nat, p: nat)
    requires Run(states, steps) && Inv(states[0]) && k < |steps|
    requires DecidingAt(states, p)(k) && DecidingAt(states, p)(k + 1)
    ensures states[k + 1].file == states[k].file && states[k + 1].lock == Some(p)
  {
    RunKeepsInv(states, steps, k);
    assert CanStep(states[k], steps[k]);
    StaysDeciding(states[k], steps[k], p);
  }

  function HeldAt(states: seq<State>, p: nat, file: LedgerFile): nat -> bool {
    (n: nat) => n < |states| && states[n].file == file && states[n].lock == Some(p)
  }

  lemma DecidingKeepsTheFile(states: seq<State>, steps: seq<Step>, k: nat, n: nat, p: nat)
    requires Run(states, steps) && Inv(states[0]) && k < n < |states|
    requires states[k + 1].lock == Some(p)
    requires forall m :: k < m <= n ==> DecidingAt(states, p)(m)
    ensures HeldAt(states, p, states[k + 1].file)(n)
  {
    var held := HeldAt(states, p, states[k + 1].file);
    forall m | k + 1 <= m < n && held(m)
      ensures held(m + 1)
    {
      StaysDecidingInRun(states, steps, m, p);
    }
    StaysTrue(held, k + 1, n);
  }

  // A process that may admit came there by its own prune, and held the lock ever since.
  lemma DecidedByPrune(states: seq<State>, steps: seq<Step>, n: nat, p: nat) returns (k: nat)
    requires Run(states, steps) && Inv(states[0]) && !Deciding(states[0], p)
    requires n < |states| && Deciding(states[n], p)
    ensures k < n && (steps[k] == SavePrune(p) || steps[k] == SkipPrune(p))
    ensures states[k + 1].file == states[n].file
    ensures forall m :: k <= m <= n ==> states[m].lock == Some(p)
  {
    k := LastRise(DecidingAt(states, p), n);
    BecomesDecidingInRun(states, steps, k, p);
    DecidingKeepsTheFile(states, steps, k, n, p);
    forall m | k < m <= n
      ensures states[m].lock == Some(p)
    {
      DecidingKeepsTheFile(states, steps, k, m, p);
      assert HeldAt(states, p, states[k + 1].file)(m);
    }
  }

  // Every lease that counts against an admission was judged in the same critical section: its
  // report, and then its owner, allowed nobody to drop it.
  lemma AdmissionCountsJudgedLeases(states: seq<State>, steps: seq<Step>, n: nat, l: Lease)
    returns (k: nat, read: ReadAt, owner: AliveAt)
    requires Run(states, steps) && Init(states[0]) && n < |steps|
    requires steps[n].SaveAdmission? && l in LeasesIn(states[n].file)
    ensures k < n && steps[n].p in states[k].procs && states[k].procs[steps[n].p].phase.Reading?
    ensures states[k].procs[steps[n].p].phase.since <= read.at < owner.at < |states[k].past|
    ensures forall m :: k <= m <= n ==> states[m].lock == Some(steps[n].p)
    ensures !Finished(states[k].past[read.at], read.durable, states[k].past[owner.at], l)
  {
    var p := steps[n].p;
    assert CanStep(states[n], steps[n]);
    InitInv(states[0]);
    k := DecidedByPrune(states, steps, n, p);
    RunKeepsInv(states, steps, k);
    assert CanStep(states[k], steps[k]);
    PruneRemovesOnly(states[k], steps[k], l);
    read, owner := PruneJudgesEveryLease(states[k], steps[k], l);
  }

  lemma PruneRemovesOnly(s: State, step: Step, l: Lease)
    requires Inv(s) && CanStep(s, step) && (step.SavePrune? || step.SkipPrune?)
    requires l in LeasesIn(After(s, step).file)
    ensures l in LeasesIn(s.file)
  {
    if step.SavePrune? {
      assert ProcessOk(s, step.p);
      var ph := s.procs[step.p].phase;
      var view := ViewOf(ph.reports, ph.owners);
      SortKeeps(Pruned(ph.loaded, view));
      PrunedMembers(ph.loaded, view, l);
    }
  }
}
