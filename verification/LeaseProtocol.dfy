/**
 Many launcher processes sharing one ledger file behind a lock. Taking the lock, loading,
 reading each report, checking each owner, saving and unlocking are separate steps, and
 reports and processes change between any two of them. A process may stop at any point; the
 lock is then released.
 */
module LeaseProtocol {
  import opened Common
  import opened LeaseLedger
  import opened LeaseCommits
  import opened Paths
  import opened Resources

  // Report files by path, and running processes by pid with their identities.
  datatype World = World(reports: map<Path, ReportRead>, processes: map<u32, string>)

  function ReadOf(w: World, path: Path): ReportRead {
    if path in w.reports then w.reports[path] else Absent
  }

  predicate OwnerAlive(w: World, l: Lease) {
    l.ownerPid in w.processes && (l.ownerIdentity.Some? ==> w.processes[l.ownerPid] == l.ownerIdentity.value)
  }

  datatype Operation =
    | Reserve(r: ReserveRequest) | Reconcile | Release(h: Handle) | Rollback(h: Handle)
    | ClearOne(id: string) | ClearAll | Inspect

  // Observations carry the moment at which they were made.
  datatype ReadAt = ReadAt(read: ReportRead, durable: bool, at: nat)
  datatype AliveAt = AliveAt(alive: bool, at: nat)

  datatype Phase =
    | Waiting
    | Entered(since: nat)
    | Reading(since: nat, loaded: seq<Lease>, reports: map<Lease, ReadAt>, owners: map<Lease, AliveAt>)
    | Decided(since: nat, loaded: seq<Lease>)
    | Checked(since: nat, loaded: seq<Lease>, report: ReadAt)
    | Leaving(since: nat)
    | Done

  datatype Process = Process(op: Operation, phase: Phase)

  // `past` and `log` record the worlds seen so far and the commits made so far.
  datatype State = State(
    file: LedgerFile,
    lock: Option<nat>,
    procs: map<nat, Process>,
    world: World,
    past: seq<World>,
    log: seq<Commit>
  )

  datatype Step =
    | Begin(p: nat, op: Operation)
    | Acquire(p: nat)
    | TimeOut(p: nat)
    | LoadLedger(p: nat)
    | ReadReport(p: nat, lease: Lease, durable: bool)
    | CheckOwner(p: nat, lease: Lease)
    | SavePrune(p: nat)
    | SkipPrune(p: nat)
    | SaveAdmission(p: nat)
    | ReadHandleReport(p: nat, durable: bool)
    | SaveRemoval(p: nat)
    | SaveClear(p: nat)
    | Unlock(p: nat)
    | Environment(world: World)

  function ViewOf(reports: map<Lease, ReadAt>, owners: map<Lease, AliveAt>): View {
    (l: Lease) =>
      if l in reports && l in owners then Sighting(reports[l].read, reports[l].durable, owners[l].alive)
      else Sighting(Unreadable, false, true)
  }

  ghost predicate AllObserved(phase: Phase)
    requires phase.Reading?
  {
    forall l :: l in phase.loaded ==> l in phase.reports && l in phase.owners
  }

  // The loop goes through the leases in ledger order: of each, the report, then the owner.
  ghost predicate IsNext(phase: Phase, l: Lease)
    requires phase.Reading?
  {
    exists n: nat :: n < |phase.loaded| && phase.loaded[n] == l && l !in phase.owners
      && forall m :: 0 <= m < n ==> phase.loaded[m] in phase.owners
  }

  predicate SomethingExpired(phase: Phase)
    requires phase.Reading?
  {
    FlatMap(Select(VerdictOf(ViewOf(phase.reports, phase.owners)), Drop), phase.loaded) != []
  }

  function RemovalCommit(op: Operation, report: ReadAt): Commit
    requires op.Release? || op.Rollback?
  {
    var seen := Sighting(report.read, report.durable, true);
    if op.Release? then ReleaseCommit(op.h, seen) else RollbackCommit(op.h, seen)
  }

  // The handle's lease is in the loaded ledger and its report is in the state the operation needs.
  ghost predicate RemovalAllowed(op: Operation, loaded: seq<Lease>, report: ReadAt) {
    && (op.Release? || op.Rollback?)
    && Holds(loaded, op.h)
    && ReportStateOf(report.read, report.durable, op.h.id) ==
         Some(if op.Release? then CleanupComplete else MissingReport)
  }

  ghost predicate ClearAllowed(s: State, proc: Process) {
    || (proc.op.ClearAll? && proc.phase.Entered? && !s.file.NoFile?)
    || (proc.op.ClearOne? && proc.phase.Reading? && exists l :: l in proc.phase.loaded && l.id == proc.op.id)
  }

  ghost predicate CanStep(s: State, step: Step) {
    match step
    case Begin(p, _) => p !in s.procs
    case Acquire(p) => p in s.procs && s.procs[p].phase.Waiting? && s.lock.None?
    case TimeOut(p) => p in s.procs && s.procs[p].phase.Waiting?
    case LoadLedger(p) => p in s.procs && s.procs[p].phase.Entered? && Loads(s.file)
    case ReadReport(p, l, _) =>
      p in s.procs && s.procs[p].phase.Reading? && IsNext(s.procs[p].phase, l) && l !in s.procs[p].phase.reports
    case CheckOwner(p, l) =>
      p in s.procs && s.procs[p].phase.Reading? && IsNext(s.procs[p].phase, l) && l in s.procs[p].phase.reports
    case SavePrune(p) =>
      && p in s.procs && (s.procs[p].op.Reserve? || s.procs[p].op.Reconcile?)
      && s.procs[p].phase.Reading? && AllObserved(s.procs[p].phase) && SomethingExpired(s.procs[p].phase)
    case SkipPrune(p) =>
      && p in s.procs && (s.procs[p].op.Reserve? || s.procs[p].op.Reconcile?)
      && s.procs[p].phase.Reading? && AllObserved(s.procs[p].phase) && !SomethingExpired(s.procs[p].phase)
    case SaveAdmission(p) =>
      && p in s.procs && s.procs[p].op.Reserve? && s.procs[p].phase.Decided?
      && Admissible(s.procs[p].phase.loaded, s.procs[p].op.r)
    case ReadHandleReport(p, _) =>
      p in s.procs && s.procs[p].phase.Reading? && (s.procs[p].op.Release? || s.procs[p].op.Rollback?)
    case SaveRemoval(p) =>
      && p in s.procs && s.procs[p].phase.Checked?
      && RemovalAllowed(s.procs[p].op, s.procs[p].phase.loaded, s.procs[p].phase.report)
    case SaveClear(p) => p in s.procs && ClearAllowed(s, s.procs[p])
    case Unlock(p) => p in s.procs && s.lock == Some(p)
    case Environment(_) => true
  }

  // A save writes what the process computed from the ledger it loaded, not from the file.
  ghost function After(s: State, step: Step): State
    requires CanStep(s, step)
  {
    var t := s.(past := s.past + [s.world]);
    match step
    case Begin(p, op) => t.(procs := s.procs[p := Process(op, Waiting)])
    case Acquire(p) => Moved(t, p, Entered(|s.past|)).(lock := Some(p))
    case TimeOut(p) => Moved(t, p, Done)
    case LoadLedger(p) => Moved(t, p, Reading(s.procs[p].phase.since, LeasesIn(s.file), map[], map[]))
    case ReadReport(p, l, durable) =>
      var ph := s.procs[p].phase;
      Moved(t, p, ph.(reports := ph.reports[l := ReadAt(ReadOf(s.world, l.reportPath), durable, |s.past|)]))
    case CheckOwner(p, l) =>
      var ph := s.procs[p].phase;
      Moved(t, p, ph.(owners := ph.owners[l := AliveAt(OwnerAlive(s.world, l), |s.past|)]))
    case SavePrune(p) =>
      var ph := s.procs[p].phase;
      var commit := PruneCommit(ViewOf(ph.reports, ph.owners));
      Committed(Moved(t, p, Decided(ph.since, SortById(Kept(ph.loaded, commit)))), ph.loaded, commit)
    case SkipPrune(p) => Moved(t, p, Decided(s.procs[p].phase.since, s.procs[p].phase.loaded))
    case SaveAdmission(p) =>
      var ph := s.procs[p].phase;
      Committed(Moved(t, p, Leaving(ph.since)), ph.loaded, AdmitCommit(s.procs[p].op.r))
    case ReadHandleReport(p, durable) =>
      var ph := s.procs[p].phase;
      Moved(t, p, Checked(ph.since, ph.loaded, ReadAt(ReadOf(s.world, s.procs[p].op.h.reportPath), durable, |s.past|)))
    case SaveRemoval(p) =>
      var ph := s.procs[p].phase;
      Committed(Moved(t, p, Leaving(ph.since)), ph.loaded, RemovalCommit(s.procs[p].op, ph.report))
    case SaveClear(p) =>
      var ph := s.procs[p].phase;
      if s.procs[p].op.ClearAll? then Committed(Moved(t, p, Leaving(ph.since)), [], ClearAllCommit)
      else Committed(Moved(t, p, Leaving(ph.since)), ph.loaded, ClearCommit(s.procs[p].op.id))
    case Unlock(p) => Moved(t, p, Done).(lock := None)
    case Environment(world) => t.(world := world)
  }

  function Moved(s: State, p: nat, phase: Phase): State
    requires p in s.procs
  {
    s.(procs := s.procs[p := s.procs[p].(phase := phase)])
  }

  function Committed(s: State, loaded: seq<Lease>, c: Commit): State {
    s.(file := Saved(Kept(loaded, c)), log := s.log + [c])
  }

  // ----- Serial histories -----

  // The ledger after a history of atomic commits from no file at all.
  function Replay(log: seq<Commit>): LedgerFile {
    if log == [] then NoFile else Apply(Replay(log[..|log| - 1]), log[|log| - 1])
  }

  // Each commit was allowed on the ledger left by the commits before it.
  ghost predicate Serial(log: seq<Commit>) {
    forall i :: 0 <= i < |log| ==> Enabled(Replay(log[..i]), log[i])
  }

  lemma SerialExtends(log: seq<Commit>, c: Commit)
    requires Serial(log) && Enabled(Replay(log), c)
    ensures Serial(log + [c]) && Replay(log + [c]) == Apply(Replay(log), c)
  {
    assert (log + [c])[..|log|] == log;
    forall i | 0 <= i < |log + [c]|
      ensures Enabled(Replay((log + [c])[..i]), (log + [c])[i])
    {
      if i < |log| {
        assert (log + [c])[..i] == log[..i];
      }
    }
  }

  // ----- The invariant -----

  predicate InSection(phase: Phase) {
    !phase.Waiting? && !phase.Done?
  }

  ghost predicate ReadIsGenuine(past: seq<World>, since: nat, path: Path, r: ReadAt) {
    since <= r.at < |past| && r.read == ReadOf(past[r.at], path)
  }

  ghost predicate OwnerIsGenuine(past: seq<World>, after: nat, l: Lease, a: AliveAt) {
    after < a.at < |past| && a.alive == OwnerAlive(past[a.at], l)
  }

  ghost predicate ObservationsGenuine(past: seq<World>, op: Operation, phase: Phase) {
    match phase
    case Entered(since) => since < |past|
    case Reading(since, _, reports, owners) =>
      && since < |past|
      && (forall l :: l in reports ==> ReadIsGenuine(past, since, l.reportPath, reports[l]))
      && (forall l :: l in owners ==> l in reports && OwnerIsGenuine(past, reports[l].at, l, owners[l]))
    case Decided(since, _) => since < |past|
    case Checked(since, _, report) =>
      since < |past| && (op.Release? || op.Rollback?) && ReadIsGenuine(past, since, op.h.reportPath, report)
    case Leaving(since) => since < |past|
    case _ => true
  }

  // What a process has loaded is what is in the file, as long as it holds the lock.
  ghost predicate LoadedIsCurrent(file: LedgerFile, phase: Phase) {
    match phase
    case Reading(_, loaded, _, _) => Loads(file) && loaded == LeasesIn(file)
    case Decided(_, loaded) => Loads(file) && loaded == LeasesIn(file)
    case Checked(_, loaded, _) => Loads(file) && loaded == LeasesIn(file)
    case _ => true
  }

  ghost predicate ProcessOk(s: State, p: nat)
    requires p in s.procs
  {
    && (InSection(s.procs[p].phase) <==> s.lock == Some(p))
    && LoadedIsCurrent(s.file, s.procs[p].phase)
    && ObservationsGenuine(s.past, s.procs[p].op, s.procs[p].phase)
  }

  ghost predicate Inv(s: State) {
    && (s.lock.Some? ==> s.lock.value in s.procs)
    && (forall p :: p in s.procs ==> ProcessOk(s, p))
    && Loads(s.file)
    && Serial(s.log) && Replay(s.log) == s.file
  }

  ghost predicate Init(s: State) {
    s.file == NoFile && s.lock.None? && s.procs == map[] && s.past == [] && s.log == []
  }

  lemma InitInv(s: State)
    requires Init(s)
    ensures Inv(s)
  {
  }

  // The commit a step makes, if it makes one.
  ghost function CommitOf(s: State, step: Step): Option<Commit>
    requires CanStep(s, step)
  {
    match step
    case SavePrune(p) => Some(PruneCommit(ViewOf(s.procs[p].phase.reports, s.procs[p].phase.owners)))
    case SaveAdmission(p) => Some(AdmitCommit(s.procs[p].op.r))
    case SaveRemoval(p) => Some(RemovalCommit(s.procs[p].op, s.procs[p].phase.report))
    case SaveClear(p) => Some(if s.procs[p].op.ClearAll? then ClearAllCommit else ClearCommit(s.procs[p].op.id))
    case _ => None
  }

  function Actor(step: Step): Option<nat> {
    match step
    case Environment(_) => None
    case _ => Some(step.p)
  }

  lemma NoCommitNoChange(s: State, step: Step)
    requires CanStep(s, step) && CommitOf(s, step).None?
    ensures After(s, step).file == s.file && After(s, step).log == s.log
  {
  }

  // A committing process holds the lock, and what it saves is its commit on the current file.
  lemma CommitIsAtomic(s: State, step: Step)
    requires CanStep(s, step) && CommitOf(s, step).Some?
    requires Actor(step).Some? && step.p in s.procs && ProcessOk(s, step.p)
    ensures s.lock == Actor(step)
    ensures Enabled(s.file, CommitOf(s, step).value)
    ensures After(s, step).file == Apply(s.file, CommitOf(s, step).value)
    ensures After(s, step).log == s.log + [CommitOf(s, step).value]
  {
  }

  // A step either leaves the file and the history alone, or is the lock holder applying one
  // atomic commit to the current file.
  lemma StepIsAtomicCommit(s: State, step: Step)
    requires Inv(s) && CanStep(s, step)
    ensures CommitOf(s, step).None? ==> After(s, step).file == s.file && After(s, step).log == s.log
    ensures CommitOf(s, step).Some? ==>
      && Actor(step).Some? && s.lock == Actor(step)
      && Enabled(s.file, CommitOf(s, step).value)
      && After(s, step).file == Apply(s.file, CommitOf(s, step).value)
      && After(s, step).log == s.log + [CommitOf(s, step).value]
  {
    if CommitOf(s, step).None? {
      NoCommitNoChange(s, step);
    } else {
      assert ProcessOk(s, step.p);
      CommitIsAtomic(s, step);
    }
  }

  lemma MoreWorldsKeepObservations(past: seq<World>, w: World, op: Operation, phase: Phase)
    requires ObservationsGenuine(past, op, phase)
    ensures ObservationsGenuine(past + [w], op, phase)
  {
    forall k | 0 <= k < |past|
      ensures (past + [w])[k] == past[k]
    {
    }
  }

  // The acting process after its step, by kind of step.
  lemma PrunerStaysOk(s: State, step: Step)
    requires CanStep(s, step) && step.SavePrune? && ProcessOk(s, step.p)
    ensures ProcessOk(After(s, step), step.p)
  {
    CommitIsAtomic(s, step);
    CommitSavesValidLedger(s.file, CommitOf(s, step).value);
  }

  lemma LeaverStaysOk(s: State, step: Step)
    requires CanStep(s, step) && (step.SaveAdmission? || step.SaveRemoval? || step.SaveClear?) && ProcessOk(s, step.p)
    ensures ProcessOk(After(s, step), step.p)
  {
  }

  lemma ObserverStaysOk(s: State, step: Step)
    requires CanStep(s, step) && (step.ReadReport? || step.CheckOwner? || step.ReadHandleReport?) && ProcessOk(s, step.p)
    ensures ProcessOk(After(s, step), step.p)
  {
    MoreWorldsKeepObservations(s.past, s.world, s.procs[step.p].op, s.procs[step.p].phase);
    assert (s.past + [s.world])[|s.past|] == s.world;
  }

  lemma MoverStaysOk(s: State, step: Step)
    requires CanStep(s, step)
    requires step.Acquire? || step.TimeOut? || step.LoadLedger? || step.SkipPrune? || step.Unlock?
    requires ProcessOk(s, step.p)
    ensures ProcessOk(After(s, step), step.p)
  {
  }

  lemma BeginnerIsOk(s: State, step: Step)
    requires CanStep(s, step) && step.Begin? && s.lock != Some(step.p)
    ensures step.p in After(s, step).procs && ProcessOk(After(s, step), step.p)
  {
  }

  // Every other process: the acting one has not touched what it relies on.
  lemma OtherStaysOk(s: State, step: Step, q: nat)
    requires CanStep(s, step) && q in s.procs && ProcessOk(s, q) && Actor(step) != Some(q)
    requires Actor(step).Some? && step.p in s.procs ==> ProcessOk(s, step.p)
    ensures q in After(s, step).procs && ProcessOk(After(s, step), q)
  {
    MoreWorldsKeepObservations(s.past, s.world, s.procs[q].op, s.procs[q].phase);
    OtherSeesNoCommit(s, step, q);
  }

  lemma OtherSeesNoCommit(s: State, step: Step, q: nat)
    requires CanStep(s, step) && q in s.procs && ProcessOk(s, q) && Actor(step) != Some(q)
    requires Actor(step).Some? && step.p in s.procs ==> ProcessOk(s, step.p)
    ensures InSection(s.procs[q].phase) ==> After(s, step).file == s.file && After(s, step).lock == s.lock
    ensures !InSection(s.procs[q].phase) ==> After(s, step).lock != Some(q)
    ensures q in After(s, step).procs && After(s, step).procs[q] == s.procs[q]
    ensures After(s, step).past == s.past + [s.world]
  {
  }

  // The interleaved protocol refines a serial history of atomic commits: whatever the
  // interleaving, the file is the replay of the log, and every commit in the log was allowed
  // on the ledger it was applied to.
  lemma StepKeepsInv(s: State, step: Step)
    requires Inv(s) && CanStep(s, step)
    ensures Inv(After(s, step))
  {
    var t := After(s, step);
    StepIsAtomicCommit(s, step);
    if CommitOf(s, step).Some? {
      SerialExtends(s.log, CommitOf(s, step).value);
      CommitSavesValidLedger(s.file, CommitOf(s, step).value);
    }
    forall q | q in t.procs
      ensures ProcessOk(t, q)
    {
      ProcessStaysOk(s, step, q);
    }
  }

  lemma ProcessStaysOk(s: State, step: Step, q: nat)
    requires Inv(s) && CanStep(s, step) && q in After(s, step).procs
    ensures ProcessOk(After(s, step), q)
  {
    if Actor(step) != Some(q) {
      OtherStaysOk(s, step, q);
    } else if step.Begin? {
      BeginnerIsOk(s, step);
    } else {
      ActorStaysOk(s, step);
    }
  }

  lemma ActorStaysOk(s: State, step: Step)
    requires CanStep(s, step) && Actor(step).Some? && !step.Begin? && ProcessOk(s, step.p)
    ensures ProcessOk(After(s, step), step.p)
  {
    match step {
      case SavePrune(_) => PrunerStaysOk(s, step);
      case SaveAdmission(_) => LeaverStaysOk(s, step);
      case SaveRemoval(_) => LeaverStaysOk(s, step);
      case SaveClear(_) => LeaverStaysOk(s, step);
      case ReadReport(_, _, _) => ObserverStaysOk(s, step);
      case CheckOwner(_, _) => ObserverStaysOk(s, step);
      case ReadHandleReport(_, _) => ObserverStaysOk(s, step);
      case _ => MoverStaysOk(s, step);
    }
  }
}
