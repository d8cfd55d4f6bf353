/**
 What a process that finds the lock free can bring about: the converse of the safety results.
 Whatever the current reports and owners entitle a prune, an admission, a release or a rollback
 to do, some run does.
 */
module LeaseReachability {
  import opened Common
  import opened LeaseLedger
  import opened LeaseCommits
  import opened LeaseProtocol
  import opened LeaseSafety
  import opened LeaseStores

  // The steps lead from s to t: steps of processes only, and no explicit clear.
  ghost predicate Leads(s: State, steps: seq<Step>, t: State)
    decreases |steps|
  {
    if steps == [] then s == t
    else
      && !steps[0].Environment? && !steps[0].SaveClear?
      && CanStep(s, steps[0]) && Leads(After(s, steps[0]), steps[1..], t)
  }

  lemma {:induction false} LeadsOn(s: State, front: seq<Step>, t: State, back: seq<Step>, u: State)
    requires Leads(s, front, t) && Leads(t, back, u)
    ensures Leads(s, front + back, u)
    decreases |front|
  {
    if front == [] {
      assert front + back == back;
    } else {
      assert (front + back)[1..] == front[1..] + back;
      LeadsOn(After(s, front[0]), front[1..], t, back, u);
    }
  }

  lemma OneStep(s: State, step: Step)
    requires CanStep(s, step) && !step.Environment? && !step.SaveClear?
    ensures Leads(s, [step], After(s, step))
  {
    assert [step][1..] == [];
  }

  lemma ThenStep(s: State, front: seq<Step>, t: State, step: Step)
    requires Leads(s, front, t) && CanStep(t, step) && !step.Environment? && !step.SaveClear?
    ensures Leads(s, front + [step], After(t, step))
  {
    OneStep(t, step);
    LeadsOn(s, front, t, [step], After(t, step));
  }

  // Steps that lead on are a run.
  lemma {:induction false} LeadsIsRun(s: State, steps: seq<Step>, t: State) returns (states: seq<State>)
    requires Leads(s, steps, t)
    ensures Run(states, steps) && states[0] == s && states[|steps|] == t
    ensures forall i :: 0 <= i < |states| ==> states[i].world == s.world
    ensures forall i :: 0 <= i < |steps| ==> !steps[i].SaveClear?
    decreases |steps|
  {
    if steps == [] {
      states := [s];
    } else {
      var rest := LeadsIsRun(After(s, steps[0]), steps[1..], t);
      RunPrepends(s, steps[0], rest, steps[1..]);
      assert [steps[0]] + steps[1..] == steps;
      states := [s] + rest;
    }
  }

  lemma RunPrepends(s: State, step: Step, states: seq<State>, steps: seq<Step>)
    requires Run(states, steps) && CanStep(s, step) && After(s, step) == states[0]
    ensures Run([s] + states, [step] + steps)
  {
    var more, path := [s] + states, [step] + steps;
    forall i | 0 <= i < |path|
      ensures CanStep(more[i], path[i]) && more[i + 1] == After(more[i], path[i])
    {
      if i > 0 {
        assert path[i] == steps[i - 1] && more[i] == states[i - 1];
      }
    }
  }

  // A step between two runs joins them.
  lemma RunsJoin(a: seq<State>, front: seq<Step>, step: Step, b: seq<State>, back: seq<Step>)
    requires Run(a, front) && Run(b, back) && CanStep(a[|front|], step) && After(a[|front|], step) == b[0]
    ensures Run(a + b, front + [step] + back)
  {
    var states, steps := a + b, front + [step] + back;
    forall i | 0 <= i < |steps|
      ensures CanStep(states[i], steps[i]) && states[i + 1] == After(states[i], steps[i])
    {
      if i < |front| {
        assert steps[i] == front[i] && states[i] == a[i] && states[i + 1] == a[i + 1];
      } else if i > |front| {
        var k := i - |front| - 1;
        assert steps[i] == back[k] && states[i] == b[k] && states[i + 1] == b[k + 1];
      }
    }
  }

  lemma {:induction false} LeadsKeepsInv(s: State, steps: seq<Step>, t: State)
    requires Inv(s) && Leads(s, steps, t)
    ensures Inv(t)
    decreases |steps|
  {
    if steps != [] {
      StepKeepsInv(s, steps[0]);
      LeadsKeepsInv(After(s, steps[0]), steps[1..], t);
    }
  }

  // ----- One process, once it has the lock -----

  // One process enters with its operation, takes the lock and loads the ledger.
  lemma EntersAndLoads(s: State, p: nat, op: Operation) returns (steps: seq<Step>, t: State)
    requires s.lock.None? && p !in s.procs && Loads(s.file)
    ensures Leads(s, steps, t)
    ensures t.file == s.file && t.world == s.world && t.lock == Some(p)
    ensures p in t.procs && t.procs[p] == Process(op, Reading(|s.past| + 1, LeasesIn(s.file), map[], map[]))
  {
    var begun := After(s, Begin(p, op));
    var entered := After(begun, Acquire(p));
    t := After(entered, LoadLedger(p));
    OneStep(s, Begin(p, op));
    ThenStep(s, [Begin(p, op)], begun, Acquire(p));
    ThenStep(s, [Begin(p, op)] + [Acquire(p)], entered, LoadLedger(p));
    steps := [Begin(p, op)] + [Acquire(p)] + [LoadLedger(p)];
  }

  // The process has only observed more of the world.
  ghost predicate SeenMore(s: State, t: State, p: nat) {
    && p in s.procs && p in t.procs && s.procs[p].phase.Reading? && t.procs[p].phase.Reading?
    && t.file == s.file && t.world == s.world && t.lock == s.lock && t.procs[p].op == s.procs[p].op
    && t.procs[p].phase.since == s.procs[p].phase.since && t.procs[p].phase.loaded == s.procs[p].phase.loaded
    && MoreReports(s.world, s.procs[p].phase.reports, t.procs[p].phase.reports)
    && MoreOwners(s.world, s.procs[p].phase.owners, t.procs[p].phase.owners)
  }

  ghost predicate MoreReports(w: World, before: map<Lease, ReadAt>, after: map<Lease, ReadAt>) {
    && (forall l :: l in before ==> l in after && after[l] == before[l])
    && (forall l :: l in after && l !in before ==> after[l].read == ReadOf(w, l.reportPath) && after[l].durable)
  }

  ghost predicate MoreOwners(w: World, before: map<Lease, AliveAt>, after: map<Lease, AliveAt>) {
    && (forall l :: l in before ==> l in after && after[l] == before[l])
    && (forall l :: l in after && l !in before ==> after[l].alive == OwnerAlive(w, l))
  }

  lemma SeenMoreTransitive(s: State, t: State, u: State, p: nat)
    requires SeenMore(s, t, p) && SeenMore(t, u, p)
    ensures SeenMore(s, u, p)
  {
  }

  // The leases before the n-th have been observed, and no owner before its report.
  ghost predicate ObservedUpTo(phase: Phase, n: nat)
    requires phase.Reading?
  {
    && n <= |phase.loaded|
    && (forall m :: 0 <= m < n ==> phase.loaded[m] in phase.owners)
    && (forall l :: l in phase.owners ==> l in phase.reports)
  }

  lemma ReadsReport(s: State, p: nat, n: nat)
    requires p in s.procs && s.procs[p].phase.Reading?
    requires ObservedUpTo(s.procs[p].phase, n) && n < |s.procs[p].phase.loaded|
    requires s.procs[p].phase.loaded[n] !in s.procs[p].phase.reports
    ensures
      var step := ReadReport(p, s.procs[p].phase.loaded[n], true);
      && CanStep(s, step) && SeenMore(s, After(s, step), p)
      && ObservedUpTo(After(s, step).procs[p].phase, n)
      && s.procs[p].phase.loaded[n] in After(s, step).procs[p].phase.reports
  {
    assert IsNext(s.procs[p].phase, s.procs[p].phase.loaded[n]);
  }

  lemma ChecksOwner(s: State, p: nat, n: nat)
    requires p in s.procs && s.procs[p].phase.Reading?
    requires ObservedUpTo(s.procs[p].phase, n) && n < |s.procs[p].phase.loaded|
    requires s.procs[p].phase.loaded[n] in s.procs[p].phase.reports
    requires s.procs[p].phase.loaded[n] !in s.procs[p].phase.owners
    ensures
      var step := CheckOwner(p, s.procs[p].phase.loaded[n]);
      && CanStep(s, step) && SeenMore(s, After(s, step), p)
      && ObservedUpTo(After(s, step).procs[p].phase, n + 1)
  {
    assert IsNext(s.procs[p].phase, s.procs[p].phase.loaded[n]);
  }

  // From any point of its loop a process can go on to observe every lease, in ledger order.
  lemma {:induction false} ObservesTheRest(s: State, p: nat, n: nat) returns (steps: seq<Step>, t: State)
    requires p in s.procs && s.procs[p].phase.Reading? && ObservedUpTo(s.procs[p].phase, n)
    ensures Leads(s, steps, t) && SeenMore(s, t, p) && AllObserved(t.procs[p].phase)
    decreases |s.procs[p].phase.loaded| - n,
              if n < |s.procs[p].phase.loaded| && s.procs[p].phase.loaded[n] !in s.procs[p].phase.reports then 1 else 0
  {
    var phase := s.procs[p].phase;
    if n == |phase.loaded| {
      steps, t := [], s;
    } else if phase.loaded[n] in phase.owners {
      steps, t := ObservesTheRest(s, p, n + 1);
    } else {
      var step: Step;
      if phase.loaded[n] in phase.reports {
        ChecksOwner(s, p, n);
        step := CheckOwner(p, phase.loaded[n]);
        steps, t := ObservesTheRest(After(s, step), p, n + 1);
      } else {
        ReadsReport(s, p, n);
        step := ReadReport(p, phase.loaded[n], true);
        steps, t := ObservesTheRest(After(s, step), p, n);
      }
      SeenMoreTransitive(s, After(s, step), t, p);
      OneStep(s, step);
      LeadsOn(s, [step], After(s, step), steps, t);
      steps := [step] + steps;
    }
  }

  // ----- Pruning by the current world -----

  // What a look at every lease at this very moment tells.
  function WorldView(w: World): View {
    (l: Lease) => Sighting(ReadOf(w, l.reportPath), true, OwnerAlive(w, l))
  }

  lemma PrunedAlike(file: LedgerFile, v: View, w: View)
    requires forall l :: l in LeasesIn(file) ==> v(l) == w(l)
    ensures Pruned(LeasesIn(file), v) == Pruned(LeasesIn(file), w)
    ensures FlatMap(Select(VerdictOf(v), Drop), LeasesIn(file)) == FlatMap(Select(VerdictOf(w), Drop), LeasesIn(file))
    ensures AfterPrune(file, v) == AfterPrune(file, w)
  {
    FlatMapSame(KeepUnless(VerdictOf(v)), KeepUnless(VerdictOf(w)), LeasesIn(file));
    FlatMapSame(Select(VerdictOf(v), Drop), Select(VerdictOf(w), Drop), LeasesIn(file));
  }

  // A process that holds the lock and has observed everything it loaded.
  ghost predicate ReadyToPrune(s: State, p: nat) {
    && s.lock == Some(p) && p in s.procs && (s.procs[p].op.Reserve? || s.procs[p].op.Reconcile?)
    && s.procs[p].phase.Reading? && s.procs[p].phase.loaded == LeasesIn(s.file) && Loads(s.file)
    && AllObserved(s.procs[p].phase)
  }

  lemma PrunesOnce(s: State, p: nat) returns (step: Step)
    requires ReadyToPrune(s, p)
    ensures CanStep(s, step) && (step.SavePrune? || step.SkipPrune?)
    ensures
      var t, view := After(s, step), ViewOf(s.procs[p].phase.reports, s.procs[p].phase.owners);
      && t.file == AfterPrune(s.file, view) && t.world == s.world && t.lock == s.lock
      && p in t.procs && t.procs[p] == Process(s.procs[p].op, Decided(s.procs[p].phase.since, LeasesIn(t.file)))
  {
    step := if SomethingExpired(s.procs[p].phase) then SavePrune(p) else SkipPrune(p);
  }

  lemma ObservesAll(s: State, p: nat) returns (steps: seq<Step>, t: State)
    requires s.lock == Some(p) && p in s.procs && (s.procs[p].op.Reserve? || s.procs[p].op.Reconcile?) && Loads(s.file)
    requires s.procs[p].phase.Reading? && s.procs[p].phase.loaded == LeasesIn(s.file)
    requires s.procs[p].phase.reports == map[] && s.procs[p].phase.owners == map[]
    ensures Leads(s, steps, t) && ReadyToPrune(t, p) && t.file == s.file
    ensures t.procs[p].op == s.procs[p].op && t.procs[p].phase.since == s.procs[p].phase.since
    ensures
      AfterPrune(s.file, ViewOf(t.procs[p].phase.reports, t.procs[p].phase.owners)) == AfterPrune(s.file, WorldView(s.world))
  {
    steps, t := ObservesTheRest(s, p, 0);
    ViewIsCurrent(t.procs[p].phase, s.world);
    PrunedAlike(s.file, ViewOf(t.procs[p].phase.reports, t.procs[p].phase.owners), WorldView(s.world));
  }

  lemma ViewIsCurrent(phase: Phase, w: World)
    requires phase.Reading? && AllObserved(phase)
    requires MoreReports(w, map[], phase.reports) && MoreOwners(w, map[], phase.owners)
    ensures forall l :: l in phase.loaded ==> ViewOf(phase.reports, phase.owners)(l) == WorldView(w)(l)
  {
  }

  // Having loaded the ledger, a process prunes it by what the world shows.
  lemma ObservesAndPrunes(s: State, p: nat) returns (steps: seq<Step>, t: State)
    requires s.lock == Some(p) && p in s.procs && (s.procs[p].op.Reserve? || s.procs[p].op.Reconcile?) && Loads(s.file)
    requires s.procs[p].phase.Reading? && s.procs[p].phase.loaded == LeasesIn(s.file)
    requires s.procs[p].phase.reports == map[] && s.procs[p].phase.owners == map[]
    ensures Leads(s, steps, t) && t.file == AfterPrune(s.file, WorldView(s.world)) && t.lock == s.lock
    ensures p in t.procs && t.procs[p] == Process(s.procs[p].op, Decided(s.procs[p].phase.since, LeasesIn(t.file)))
  {
    var observing, observed := ObservesAll(s, p);
    var step := PrunesOnce(observed, p);
    t := After(observed, step);
    ThenStep(s, observing, observed, step);
    steps := observing + [step];
  }

  // Takes the lock and prunes.
  lemma EntersAndPrunes(s: State, p: nat, op: Operation) returns (steps: seq<Step>, t: State)
    requires s.lock.None? && p !in s.procs && Loads(s.file) && (op.Reserve? || op.Reconcile?)
    ensures Leads(s, steps, t)
    ensures t.file == AfterPrune(s.file, WorldView(s.world)) && t.lock == Some(p)
    ensures p in t.procs && t.procs[p] == Process(op, Decided(|s.past| + 1, LeasesIn(t.file)))
  {
    var loading, loaded := EntersAndLoads(s, p, op);
    var pruning: seq<Step>;
    pruning, t := ObservesAndPrunes(loaded, p);
    LeadsOn(s, loading, loaded, pruning, t);
    steps := loading + pruning;
  }

  lemma Unlocks(s: State, p: nat)
    requires s.lock == Some(p) && p in s.procs
    ensures CanStep(s, Unlock(p)) && After(s, Unlock(p)).lock.None? && After(s, Unlock(p)).file == s.file
  {
  }

  // A reconcile that finds the lock free removes exactly what the current reports and owners
  // entitle it to remove.
  lemma PruneGoesThrough(s: State, p: nat) returns (steps: seq<Step>, t: State)
    requires s.lock.None? && p !in s.procs && Loads(s.file)
    ensures Leads(s, steps, t) && t.lock.None?
    ensures t.file == AfterPrune(s.file, WorldView(s.world))
    ensures forall l :: l in LeasesIn(t.file) <==> l in LeasesIn(s.file) && !Expired(l, WorldView(s.world))
  {
    var front, pruned := EntersAndPrunes(s, p, Operation.Reconcile);
    Unlocks(pruned, p);
    t := After(pruned, Unlock(p));
    ThenStep(s, front, pruned, Unlock(p));
    steps := front + [Unlock(p)];
    AfterPruneMembers(s.file, WorldView(s.world));
  }

  lemma AfterPruneMembers(file: LedgerFile, view: View)
    ensures forall l :: l in LeasesIn(AfterPrune(file, view)) <==> l in LeasesIn(file) && !Expired(l, view)
  {
    SortKeeps(Pruned(LeasesIn(file), view));
    if FlatMap(Select(VerdictOf(view), Drop), LeasesIn(file)) == [] {
      NothingPruned(LeasesIn(file), VerdictOf(view));
    }
    forall l
      ensures l in Pruned(LeasesIn(file), view) <==> l in LeasesIn(file) && !Expired(l, view)
    {
      PrunedMembers(LeasesIn(file), view, l);
    }
  }

  // A request admitted by the ledger that such a prune leaves is recorded in it.
  lemma ReservationGoesThrough(s: State, p: nat, r: ReserveRequest) returns (steps: seq<Step>, t: State)
    requires s.lock.None? && p !in s.procs && Loads(s.file)
    requires Enabled(AfterPrune(s.file, WorldView(s.world)), AdmitCommit(r))
    ensures Leads(s, steps, t) && t.lock.None?
    ensures t.file == Apply(AfterPrune(s.file, WorldView(s.world)), AdmitCommit(r))
  {
    var front, pruned := EntersAndPrunes(s, p, Operation.Reserve(r));
    t := SavesAdmission(pruned, p);
    var saving := [SaveAdmission(p)] + [Unlock(p)];
    LeadsOn(s, front, pruned, saving, t);
    steps := front + saving;
  }

  lemma SavesAdmission(s: State, p: nat) returns (t: State)
    requires s.lock == Some(p) && p in s.procs && s.procs[p].op.Reserve? && s.procs[p].phase.Decided?
    requires s.procs[p].phase.loaded == LeasesIn(s.file) && Enabled(s.file, AdmitCommit(s.procs[p].op.r))
    ensures Leads(s, [SaveAdmission(p)] + [Unlock(p)], t)
    ensures t.lock.None? && t.file == Apply(s.file, AdmitCommit(s.procs[p].op.r))
  {
    var saved := After(s, SaveAdmission(p));
    OneStep(s, SaveAdmission(p));
    Unlocks(saved, p);
    t := After(saved, Unlock(p));
    ThenStep(s, [SaveAdmission(p)], saved, Unlock(p));
  }

  // ----- Removal by a handle -----

  function WantedState(op: Operation): ReportState {
    if op.Release? then CleanupComplete else MissingReport
  }

  lemma FindsReport(s: State, p: nat)
    requires p in s.procs && (s.procs[p].op.Release? || s.procs[p].op.Rollback?)
    requires s.procs[p].phase.Reading? && Holds(s.procs[p].phase.loaded, s.procs[p].op.h)
    requires ReportStateOf(ReadOf(s.world, s.procs[p].op.h.reportPath), true, s.procs[p].op.h.id) == Some(WantedState(s.procs[p].op))
    ensures CanStep(s, ReadHandleReport(p, true))
    ensures
      var t := After(s, ReadHandleReport(p, true));
      && CanStep(t, SaveRemoval(p)) && t.lock == s.lock && p in t.procs
      && t.procs[p].op == s.procs[p].op && t.procs[p].phase.Checked? && t.procs[p].phase.loaded == s.procs[p].phase.loaded
  {
  }

  lemma TakesLease(s: State, p: nat) returns (t: State)
    requires s.lock == Some(p) && p in s.procs && s.procs[p].phase.Checked? && CanStep(s, SaveRemoval(p))
    ensures Leads(s, [SaveRemoval(p)] + [Unlock(p)], t)
    ensures t.lock.None? && t.file == Saved(WithoutId(s.procs[p].phase.loaded, s.procs[p].op.h.id))
  {
    var saved := After(s, SaveRemoval(p));
    OneStep(s, SaveRemoval(p));
    Unlocks(saved, p);
    t := After(saved, Unlock(p));
    ThenStep(s, [SaveRemoval(p)], saved, Unlock(p));
  }

  // A release whose report proves complete cleanup, and a rollback whose report is missing,
  // remove exactly the lease of the matching handle.
  lemma HandleRemovalGoesThrough(s: State, p: nat, op: Operation) returns (steps: seq<Step>, t: State)
    requires s.lock.None? && p !in s.procs && Loads(s.file)
    requires (op.Release? || op.Rollback?) && Holds(LeasesIn(s.file), op.h)
    requires ReportStateOf(ReadOf(s.world, op.h.reportPath), true, op.h.id) == Some(WantedState(op))
    ensures Leads(s, steps, t) && t.lock.None?
    ensures forall l :: l in LeasesIn(t.file) <==> l in LeasesIn(s.file) && l.id != op.h.id
  {
    var front, loaded := EntersAndLoads(s, p, op);
    FindsReport(loaded, p);
    ThenStep(s, front, loaded, ReadHandleReport(p, true));
    t := TakesLease(After(loaded, ReadHandleReport(p, true)), p);
    var finding, taking := front + [ReadHandleReport(p, true)], [SaveRemoval(p)] + [Unlock(p)];
    LeadsOn(s, finding, After(loaded, ReadHandleReport(p, true)), taking, t);
    steps := finding + taking;
    RemainsWithout(LeasesIn(s.file), op.h.id);
  }

  lemma RemainsWithout(leases: seq<Lease>, id: string)
    ensures forall l :: l in SortById(WithoutId(leases, id)) <==> l in leases && l.id != id
  {
    SortKeeps(WithoutId(leases, id));
    forall l
      ensures l in WithoutId(leases, id) <==> l in leases && l.id != id
    {
      WithoutIdMembers(leases, id, l);
    }
  }

  // ----- What each step of a process does to the ledger -----

  // The owner of a lease is alive when a process of its pid runs, and with its identity if the
  // lease records one.
  lemma OwnerAliveIff(w: World, l: Lease)
    ensures OwnerAlive(w, l) <==>
      l.ownerPid in w.processes && l.ownerIdentity in {None, Some(w.processes[l.ownerPid])}
  {
  }

  // Nobody gets past pruning without it: a process that has just decided has observed every
  // lease it loaded, and the ledger is what the prune by those observations leaves.
  lemma DecidedMeansPruned(s: State, step: Step, p: nat)
    requires Inv(s) && CanStep(s, step) && p in After(s, step).procs && After(s, step).procs[p].phase.Decided?
    requires p !in s.procs || !s.procs[p].phase.Decided?
    ensures p in s.procs && s.procs[p].phase.Reading? && AllObserved(s.procs[p].phase)
    ensures
      var phase, t := s.procs[p].phase, After(s, step);
      && t.file == AfterPrune(s.file, ViewOf(phase.reports, phase.owners))
      && t.procs[p].phase.loaded == LeasesIn(t.file)
  {
    if Actor(step) == Some(p) {
      ActorDecides(s, step);
    }
  }

  lemma ActorDecides(s: State, step: Step)
    requires Inv(s) && CanStep(s, step) && Actor(step).Some? && step.p in After(s, step).procs
    requires After(s, step).procs[step.p].phase.Decided? && (step.p !in s.procs || !s.procs[step.p].phase.Decided?)
    ensures step.p in s.procs && s.procs[step.p].phase.Reading? && (step.SavePrune? || step.SkipPrune?)
    ensures AllObserved(s.procs[step.p].phase)
    ensures
      var phase, t := s.procs[step.p].phase, After(s, step);
      && t.file == AfterPrune(s.file, ViewOf(phase.reports, phase.owners))
      && t.procs[step.p].phase.loaded == LeasesIn(t.file)
  {
    assert ProcessOk(s, step.p);
  }

  // A clear does to the ledger what the store's clear does, and is possible exactly when there is
  // something to clear: a ledger file, or a lease of that id.
  lemma ClearAllLikeTheStore(s: State, p: nat)
    requires p in s.procs && s.procs[p].op.ClearAll? && s.procs[p].phase.Entered?
    ensures CanStep(s, SaveClear(p)) <==> !s.file.NoFile?
    ensures !s.file.NoFile? ==> After(s, SaveClear(p)).file == AfterClear(s.file, All)
  {
  }

  lemma ClearOneLikeTheStore(s: State, p: nat, id: string)
    requires p in s.procs && s.procs[p].op == Operation.ClearOne(id) && s.procs[p].phase.Reading?
    requires s.procs[p].phase.loaded == LeasesIn(s.file) && Loads(s.file)
    ensures CanStep(s, SaveClear(p)) <==> exists l :: l in LeasesIn(s.file) && l.id == id
    ensures CanStep(s, SaveClear(p)) ==> After(s, SaveClear(p)).file == AfterClear(s.file, One(id))
  {
    if l :| l in LeasesIn(s.file) && l.id == id {
      assert ValidRecord(l);
    }
  }
}
