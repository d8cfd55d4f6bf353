/**
 The atomic changes of the lease ledger: what each saves, when it may, and what every one of
 them keeps. Both the store operations and the interleaved protocol are proved against these.
 */
module LeaseCommits {
  import opened Common
  import opened LeaseLedger
  import opened Paths
  import opened Resources
  import opened RunReports

  datatype ReserveRequest = ReserveRequest(
    id: string,
    reportPath: Path,
    ownerPid: u32,
    ownerIdentity: Option<string>,
    request: Request,
    now: u64
  ) {
    // What `reserve_in` checks before it takes the lock; relative paths have been made absolute.
    predicate WellFormed() {
      ValidRunId(id) && ownerPid != 0 && reportPath.absolute
    }
  }

  // The in-memory handle of a lease.
  datatype Handle = Handle(id: string, ownerPid: u32, ownerIdentity: Option<string>, reportPath: Path) {
    predicate Matches(l: Lease) {
      l.ownerPid == ownerPid && l.ownerIdentity == ownerIdentity && l.reportPath == reportPath
    }
  }


  function NewLease(r: ReserveRequest): Option<Lease> {
    var requested := RequestedAmounts(r.request);
    if requested.None? then None
    else Some(Lease(r.id, r.ownerPid, r.ownerIdentity, r.reportPath, requested.value.lanes,
                    requested.value.memoryMb, requested.value.cpus, requested.value.diskBytes, r.request.force, r.now))
  }

  // The handle that a reservation returns.
  function HandleOf(r: ReserveRequest): Handle {
    Handle(r.id, r.ownerPid, r.ownerIdentity, r.reportPath)
  }

  predicate AlreadyActive(leases: seq<Lease>, r: ReserveRequest) {
    exists l :: l in leases && (l.id == r.id || l.reportPath == r.reportPath)
  }

  // The request is admitted beside these leases, and its own record is in order.
  ghost predicate Admissible(leases: seq<Lease>, r: ReserveRequest) {
    && r.WellFormed()
    && !AlreadyActive(leases, r)
    && Totals(leases).FitsU64()
    && Admit(r.request, Totals(leases)).Ok?
    && NewLease(r).Some?
    && ValidRecord(NewLease(r).value)
  }

  predicate Holds(leases: seq<Lease>, h: Handle) {
    exists l :: l in leases && l.id == h.id && h.Matches(l)
  }

  datatype Commit =
    | PruneCommit(view: View)
    | AdmitCommit(r: ReserveRequest)
    | ReleaseCommit(h: Handle, seen: Sighting)
    | RollbackCommit(h: Handle, seen: Sighting)
    | ClearCommit(id: string)
    | ClearAllCommit

  function HandleState(h: Handle, seen: Sighting): Option<ReportState> {
    ReportStateOf(seen.read, seen.durable, h.id)
  }

  ghost predicate Enabled(file: LedgerFile, c: Commit) {
    match c
    case PruneCommit(view) => Loads(file)
    case AdmitCommit(r) => Loads(file) && Admissible(LeasesIn(file), r)
    case ReleaseCommit(h, seen) =>
      Loads(file) && Holds(LeasesIn(file), h) && HandleState(h, seen) == Some(CleanupComplete)
    case RollbackCommit(h, seen) =>
      Loads(file) && Holds(LeasesIn(file), h) && HandleState(h, seen) == Some(MissingReport)
    case ClearCommit(id) => Loads(file) && exists l :: l in LeasesIn(file) && l.id == id
    case ClearAllCommit => !file.NoFile?
  }

  function Kept(leases: seq<Lease>, c: Commit): seq<Lease> {
    match c
    case PruneCommit(view) => Pruned(leases, view)
    case AdmitCommit(r) => if NewLease(r).Some? then leases + [NewLease(r).value] else leases
    case ReleaseCommit(h, _) => WithoutId(leases, h.id)
    case RollbackCommit(h, _) => WithoutId(leases, h.id)
    case ClearCommit(id) => WithoutId(leases, id)
    case ClearAllCommit => []
  }

  function Saved(leases: seq<Lease>): LedgerFile {
    Stored(LEDGER_VERSION, SortById(leases))
  }

  function Apply(file: LedgerFile, c: Commit): LedgerFile {
    Saved(Kept(LeasesIn(file), c))
  }

  // ----- What every commit keeps -----

  // Every commit writes a ledger that loads, so the save never fails its own validation.
  lemma CommitSavesValidLedger(file: LedgerFile, c: Commit)
    requires Enabled(file, c)
    ensures ValidLeases(Kept(LeasesIn(file), c))
    ensures Loads(Apply(file, c))
  {
    var leases := LeasesIn(file);
    match c {
      case PruneCommit(view) => FilterKeepsValid(leases, KeepUnless(VerdictOf(view)));
      case ReleaseCommit(h, _) => FilterKeepsValid(leases, OtherThan(h.id));
      case RollbackCommit(h, _) => FilterKeepsValid(leases, OtherThan(h.id));
      case ClearCommit(id) => FilterKeepsValid(leases, OtherThan(id));
      case AdmitCommit(r) => AdmittedLeaseValidates(leases, r);
      case ClearAllCommit =>
    }
    SortKeeps(Kept(leases, c));
  }

  // Only an admission raises the totals.
  lemma OnlyAdmissionAdds(file: LedgerFile, c: Commit)
    requires Enabled(file, c) && !c.AdmitCommit?
    ensures Totals(LeasesIn(Apply(file, c))).AtMost(Totals(LeasesIn(file)))
  {
    var leases := LeasesIn(file);
    match c {
      case PruneCommit(view) => FilterKeepsValid(leases, KeepUnless(VerdictOf(view)));
      case ReleaseCommit(h, _) => FilterKeepsValid(leases, OtherThan(h.id));
      case RollbackCommit(h, _) => FilterKeepsValid(leases, OtherThan(h.id));
      case ClearCommit(id) => FilterKeepsValid(leases, OtherThan(id));
      case ClearAllCommit =>
    }
    SortKeeps(Kept(leases, c));
  }

  // An unforced admission leaves the totals within the lane limit and the budgets of its host.
  lemma AdmissionStaysWithinBudgets(file: LedgerFile, r: ReserveRequest)
    requires Enabled(file, AdmitCommit(r)) && !r.request.force
    ensures WithinBudgets(Totals(LeasesIn(Apply(file, AdmitCommit(r)))), r.request.capacity)
  {
    var leases := LeasesIn(file);
    AdmittedTotals(r.request, Totals(leases));
    TotalsAppend(leases, NewLease(r).value);
    SortKeeps(Kept(leases, AdmitCommit(r)));
  }

  lemma WithinBudgetsIsMonotone(smaller: Amounts, larger: Amounts, capacity: Capacity)
    requires smaller.AtMost(larger) && WithinBudgets(larger, capacity)
    ensures WithinBudgets(smaller, capacity)
  {
  }

  // With a fixed host capacity and no forced request, no commit leaves the budgets.
  lemma CommitStaysWithinBudgets(file: LedgerFile, c: Commit, capacity: Capacity)
    requires Enabled(file, c) && WithinBudgets(Totals(LeasesIn(file)), capacity)
    requires c.AdmitCommit? ==> c.r.request.capacity == capacity && !c.r.request.force
    ensures WithinBudgets(Totals(LeasesIn(Apply(file, c))), capacity)
  {
    if c.AdmitCommit? {
      AdmissionStaysWithinBudgets(file, c.r);
    } else {
      OnlyAdmissionAdds(file, c);
      WithinBudgetsIsMonotone(Totals(LeasesIn(Apply(file, c))), Totals(LeasesIn(file)), capacity);
    }
  }

  // Why a commit may remove a lease.
  ghost predicate MayRemove(l: Lease, c: Commit) {
    match c
    case PruneCommit(view) => Expired(l, view)
    case AdmitCommit(_) => false
    case ReleaseCommit(h, seen) => l.id == h.id && h.Matches(l) && HandleState(h, seen) == Some(CleanupComplete)
    case RollbackCommit(h, seen) => l.id == h.id && h.Matches(l) && HandleState(h, seen) == Some(MissingReport)
    case ClearCommit(id) => l.id == id
    case ClearAllCommit => true
  }

  // A commit removes exactly the leases it may remove: a handle only the lease of its own
  // owner and path, an admission none.
  lemma CommitRemovesExactly(file: LedgerFile, c: Commit, l: Lease)
    requires Loads(file) && Enabled(file, c) && l in LeasesIn(file)
    ensures l !in LeasesIn(Apply(file, c)) <==> MayRemove(l, c)
  {
    var leases := LeasesIn(file);
    SortKeeps(Kept(leases, c));
    match c {
      case PruneCommit(view) => PrunedMembers(leases, view, l);
      case ReleaseCommit(h, _) => RemovalByHandle(leases, h, l);
      case RollbackCommit(h, _) => RemovalByHandle(leases, h, l);
      case ClearCommit(id) => WithoutIdMembers(leases, id, l);
      case AdmitCommit(_) =>
      case ClearAllCommit =>
    }
  }

  lemma RemovalByHandle(leases: seq<Lease>, h: Handle, l: Lease)
    requires ValidLeases(leases) && Holds(leases, h) && l in leases
    ensures l !in WithoutId(leases, h.id) <==> l.id == h.id && h.Matches(l)
  {
    WithoutIdMembers(leases, h.id, l);
    var held :| held in leases && held.id == h.id && h.Matches(held);
    if l.id == h.id {
      IdNamesOneLease(leases, l, held);
    }
  }

  // No commit invents or alters a lease; an admission adds exactly the requested one.
  lemma CommitAddsOnlyAdmitted(file: LedgerFile, c: Commit, l: Lease)
    requires Loads(file) && Enabled(file, c)
    requires l in LeasesIn(Apply(file, c)) && l !in LeasesIn(file)
    ensures c.AdmitCommit? && NewLease(c.r) == Some(l)
  {
    var leases := LeasesIn(file);
    SortKeeps(Kept(leases, c));
    match c {
      case PruneCommit(view) => PrunedMembers(leases, view, l);
      case ReleaseCommit(h, _) => WithoutIdMembers(leases, h.id, l);
      case RollbackCommit(h, _) => WithoutIdMembers(leases, h.id, l);
      case ClearCommit(id) => WithoutIdMembers(leases, id, l);
      case AdmitCommit(_) =>
      case ClearAllCommit =>
    }
  }

  // An admitted request passes the validation of the whole ledger it is saved in exactly when
  // its own record does, and that exactly when profile, owner identity and clock are not empty.
  lemma AdmittedLeaseValidates(leases: seq<Lease>, r: ReserveRequest)
    requires ValidLeases(leases) && r.WellFormed() && !AlreadyActive(leases, r)
    requires Admit(r.request, Totals(leases)).Ok?
    ensures NewLease(r).Some?
    ensures Admissible(leases, r) <==> ValidLeases(leases + [NewLease(r).value])
    ensures Admissible(leases, r) <==>
      r.request.profile.memoryMb != 0 && r.request.profile.cpus != 0 && r.ownerIdentity != Some("") && r.now != 0
  {
    AdmittedTotals(r.request, Totals(leases));
    TotalsAppend(leases, NewLease(r).value);
    RecordIsValid(r);
    AddedRecordValidates(leases, NewLease(r).value);
  }

  // The record of a request with lanes in range is valid if and only if nothing in it is empty.
  lemma RecordIsValid(r: ReserveRequest)
    requires r.WellFormed() && 1 <= r.request.lanes <= MAX_CONCURRENT_LANES && NewLease(r).Some?
    ensures ValidRecord(NewLease(r).value) <==>
      r.request.profile.memoryMb != 0 && r.request.profile.cpus != 0 && r.ownerIdentity != Some("") && r.now != 0
  {
    NonzeroProducts(r.request);
  }

  lemma AddedRecordValidates(leases: seq<Lease>, l: Lease)
    requires ValidLeases(leases) && forall x :: x in leases ==> !Clash(x, l)
    requires Totals(leases + [l]).FitsU64()
    ensures ValidLeases(leases + [l]) <==> ValidRecord(l)
  {
    PairwiseAppend(COMPATIBLE, leases, l);
    RelatedToAllMembers(COMPATIBLE, leases, l);
    RecordsOneMore(leases, l);
  }

  lemma RecordsOneMore(leases: seq<Lease>, l: Lease)
    ensures (forall x :: x in leases + [l] ==> ValidRecord(x)) <==> (forall x :: x in leases ==> ValidRecord(x)) && ValidRecord(l)
  {
    assert l in leases + [l] && forall x :: x in leases ==> x in leases + [l];
  }

  lemma NonzeroProducts(r: Request)
    requires r.lanes != 0
    ensures r.lanes * r.profile.memoryMb != 0 <==> r.profile.memoryMb != 0
    ensures r.lanes * r.profile.cpus != 0 <==> r.profile.cpus != 0
  {
  }

  // ----- Reservations in plain terms -----

  // A handle holds the lease that agrees with it in id, owner pid, owner identity and report path.
  lemma HoldsIff(leases: seq<Lease>, h: Handle)
    ensures Holds(leases, h) <==>
      exists l :: l in leases && l.id == h.id && l.ownerPid == h.ownerPid
        && l.ownerIdentity == h.ownerIdentity && l.reportPath == h.reportPath
  {
  }

  // The record of a request holds its id, owner, path and clock, and the exact amounts.
  lemma NewLeaseRecords(r: ReserveRequest)
    requires 1 <= r.request.lanes && InRange(ExactAmounts(r.request))
    ensures
      var amounts := ExactAmounts(r.request);
      NewLease(r) == Some(Lease(r.id, r.ownerPid, r.ownerIdentity, r.reportPath, amounts.lanes, amounts.memoryMb, amounts.cpus,
                                amounts.diskBytes, r.request.force, r.now))
  {
    CheckedProductsAreExact(r.request);
  }

  ghost predicate Unused(leases: seq<Lease>, r: ReserveRequest) {
    forall l :: l in leases ==> l.id != r.id && l.reportPath != r.reportPath
  }

  // Nothing about the request itself is empty, zero or malformed.
  ghost predicate Presentable(r: ReserveRequest) {
    && IsRunId(r.id) && r.ownerPid > 0 && r.reportPath.absolute
    && r.request.profile.memoryMb > 0 && r.request.profile.cpus > 0
    && (r.ownerIdentity.Some? ==> r.ownerIdentity.value != "") && r.now > 0
  }

  // Beside valid leases a request is admissible exactly when it is presentable, its id and path
  // are unused, and it is admitted: 1 to 32 lanes, totals in range, and, unless it is forced, a
  // known capacity or no other lane, and totals that fit the host.
  lemma AdmissibleIff(leases: seq<Lease>, r: ReserveRequest)
    requires ValidLeases(leases)
    ensures
      var total, c := Totals(leases).Plus(ExactAmounts(r.request)), r.request.capacity;
      Admissible(leases, r) <==>
      && Presentable(r) && Unused(leases, r)
      && 1 <= r.request.lanes <= 32 && InRange(total)
      && (r.request.force
          || ((total.lanes <= 1 || (c.memoryMb.Some? && c.cpus.Some? && c.diskBytes.Some?)) && FitsHost(total, c)))
  {
    AdmissionIff(r.request, Totals(leases));
    ValidRunIdIff(r.id);
    if r.WellFormed() && !AlreadyActive(leases, r) && Admit(r.request, Totals(leases)).Ok? {
      AdmittedLeaseValidates(leases, r);
    }
  }

  // A forced request that is presentable and unused is admissible whatever the budgets.
  lemma ForcedIsAdmissible(leases: seq<Lease>, r: ReserveRequest)
    requires ValidLeases(leases) && r.request.force && Presentable(r) && Unused(leases, r)
    requires 1 <= r.request.lanes <= 32 && InRange(Totals(leases).Plus(ExactAmounts(r.request)))
    ensures Admissible(leases, r)
  {
    AdmissibleIff(leases, r);
  }

  // The handle of a reservation can roll it back while no report is published.
  lemma OwnRollbackIsEnabled(file: LedgerFile, r: ReserveRequest, seen: Sighting)
    requires Enabled(file, AdmitCommit(r)) && seen.read == Absent
    ensures Enabled(Apply(file, AdmitCommit(r)), RollbackCommit(HandleOf(r), seen))
  {
    CommitSavesValidLedger(file, AdmitCommit(r));
    ReservationIsHeld(LeasesIn(file), r);
  }

  // Reserving and then rolling back by the handle of the reservation leaves the leases there were.
  lemma RollbackUndoesReservation(file: LedgerFile, r: ReserveRequest, seen: Sighting, l: Lease)
    requires Enabled(file, AdmitCommit(r))
    ensures l in LeasesIn(Apply(Apply(file, AdmitCommit(r)), RollbackCommit(HandleOf(r), seen))) <==> l in LeasesIn(file)
  {
    var reserved := LeasesIn(Saved(LeasesIn(file) + [NewLease(r).value]));
    ReservationIsHeld(LeasesIn(file), r);
    LeftWithout(reserved, r.id, l);
    RollbackKeepsOthers(reserved, HandleOf(r), seen);
  }

  lemma RollbackKeepsOthers(leases: seq<Lease>, h: Handle, seen: Sighting)
    ensures Kept(leases, RollbackCommit(h, seen)) == WithoutId(leases, h.id)
  {
  }

  lemma LeftWithout(leases: seq<Lease>, id: string, l: Lease)
    ensures l in LeasesIn(Saved(WithoutId(leases, id))) <==> l in leases && l.id != id
  {
    SortKeeps(WithoutId(leases, id));
    WithoutIdMembers(leases, id, l);
  }

  // The reserved lease is held by the handle of the reservation, and is the only one of its id.
  lemma ReservationIsHeld(leases: seq<Lease>, r: ReserveRequest)
    requires NewLease(r).Some? && !AlreadyActive(leases, r)
    ensures
      var saved := LeasesIn(Saved(leases + [NewLease(r).value]));
      && Holds(saved, HandleOf(r))
      && forall l :: l in saved && l.id != r.id <==> l in leases
  {
    var added := NewLease(r).value;
    SortKeeps(leases + [added]);
    assert added in leases + [added];
    assert forall l :: l in leases + [added] <==> l in leases || l == added;
  }
}
