/**
 The operations on the ledger file while its lock is held, in the form the launcher runs them:
 load, change in memory, save. Each is one or two of the atomic commits, or no change at all.
 */
module LeaseStores {
  import opened Common
  import opened LeaseLedger
  import opened LeaseCommits
  import opened Resources
  import opened RunReports

  datatype ReserveError = InvalidRequest | Unloadable | AlreadyReserved | Refused(error: AdmissionError) | InvalidLedger

  datatype Reservation = Reservation(admission: Admission, handle: Handle)

  datatype ClearSelection = One(id: string) | All

  datatype Disposition = Armed | Retained | Released

  // The ledger after the prune that precedes admission and reconciliation.
  function AfterPrune(file: LedgerFile, view: View): LedgerFile {
    if FlatMap(Select(VerdictOf(view), Drop), LeasesIn(file)) != [] then Apply(file, PruneCommit(view)) else file
  }

  // What a reservation in a pruned ledger does: it succeeds exactly when its commit is enabled,
  // and then applies it; otherwise the ledger stays, and the reason given is the case.
  ghost predicate Reserves(pruned: LedgerFile, r: ReserveRequest, result: Result<Reservation, ReserveError>, after: LedgerFile) {
    && (result.Ok? <==> Enabled(pruned, AdmitCommit(r)))
    && (result.Ok? ==>
          && after == Apply(pruned, AdmitCommit(r))
          && Totals(LeasesIn(pruned)).FitsU64() && Admit(r.request, Totals(LeasesIn(pruned))) == Ok(result.value.admission)
          && result.value.handle == HandleOf(r))
    && (result.Err? ==> after == pruned)
    && (result == Err(AlreadyReserved) <==> AlreadyActive(LeasesIn(pruned), r))
    && (result.Err? && result.error.Refused? ==>
          Totals(LeasesIn(pruned)).FitsU64() && Admit(r.request, Totals(LeasesIn(pruned))) == Err(result.error.error))
  }

  class LeaseStore {
    var file: LedgerFile
    var backups: seq<LedgerFile>

    constructor (file: LedgerFile)
      ensures this.file == file && backups == []
    {
      this.file := file;
      this.backups := [];
    }

    method Load() returns (leases: Option<seq<Lease>>)
      ensures leases == if Loads(file) then Some(LeasesIn(file)) else None
    {
      match file {
        case NoFile => return Some([]);
        case Garbage(_) => return None;
        case Stored(version, stored) =>
          var valid := Validate(version, stored);
          return if valid then Some(stored) else None;
      }
    }

    // Sorts, validates, then replaces the file atomically.
    method Save(leases: seq<Lease>) returns (sorted: Option<seq<Lease>>)
      modifies this`file
      ensures sorted == if ValidLeases(leases) then Some(SortById(leases)) else None
      ensures file == if ValidLeases(leases) then Saved(leases) else old(file)
    {
      var ordered := SortById(leases);
      SortKeeps(leases);
      var valid := Validate(LEDGER_VERSION, ordered);
      if !valid {
        return None;
      }
      file := Stored(LEDGER_VERSION, ordered);
      return Some(ordered);
    }

    // Loads and prunes, saving only when something was pruned.
    method LoadPruned(view: View) returns (leases: Option<seq<Lease>>, diagnostics: seq<string>)
      modifies this`file
      ensures leases.Some? <==> Loads(old(file))
      ensures file == if Loads(old(file)) then AfterPrune(old(file), view) else old(file)
      ensures leases.Some? ==> Loads(file) && leases.value == LeasesIn(file)
      ensures leases.Some? ==> diagnostics == FlatMap(Select(VerdictOf(view), Quarantine), LeasesIn(old(file)))
    {
      diagnostics := [];
      leases := Load();
      if leases.None? {
        return;
      }
      var retained, changed, quarantined := Prune(leases.value, view);
      diagnostics := quarantined;
      if changed {
        CommitSavesValidLedger(file, PruneCommit(view));
        leases := Save(retained);
      } else {
        NothingPruned(leases.value, VerdictOf(view));
        leases := Some(retained);
      }
    }

    method ReserveIn(r: ReserveRequest, view: View) returns (result: Result<Reservation, ReserveError>)
      modifies this`file
      ensures result == Err(InvalidRequest) <==> !r.WellFormed()
      ensures result == Err(Unloadable) <==> r.WellFormed() && !Loads(old(file))
      ensures !r.WellFormed() || !Loads(old(file)) ==> file == old(file)
      ensures r.WellFormed() && Loads(old(file)) ==> Reserves(AfterPrune(old(file), view), r, result, file)
    {
      if !r.WellFormed() {
        return Err(InvalidRequest);
      }
      var loaded, _ := LoadPruned(view);
      if loaded.None? {
        return Err(Unloadable);
      }
      result := AdmitAndSave(r, loaded.value);
    }

    // The part of a reservation that follows the prune.
    method AdmitAndSave(r: ReserveRequest, leases: seq<Lease>) returns (result: Result<Reservation, ReserveError>)
      requires r.WellFormed() && Loads(file) && leases == LeasesIn(file)
      modifies this`file
      ensures Reserves(old(file), r, result, file)
      ensures result.Err? ==> !result.error.InvalidRequest? && !result.error.Unloadable?
    {
      if AlreadyActive(leases, r) {
        return Err(AlreadyReserved);
      }
      var reserved := Reserved(leases);
      var admission := Admit(r.request, reserved.value);
      if admission.Err? {
        return Err(Refused(admission.error));
      }
      AdmittedLeaseValidates(leases, r);
      var saved := Save(leases + [NewLease(r).value]);
      if saved.None? {
        return Err(InvalidLedger);
      }
      return Ok(Reservation(admission.value, HandleOf(r)));
    }

    method ReconcileIn(view: View) returns (reserved: Option<Amounts>, diagnostics: seq<string>)
      modifies this`file
      ensures reserved.Some? <==> Loads(old(file))
      ensures file == if Loads(old(file)) then AfterPrune(old(file), view) else old(file)
      ensures reserved.Some? ==> reserved.value == Totals(LeasesIn(file))
    {
      var leases;
      leases, diagnostics := LoadPruned(view);
      if leases.None? {
        return None, diagnostics;
      }
      reserved := Reserved(leases.value);
    }

    // Removes the lease of a handle once its report is in the wanted state.
    method RemoveHeld(h: Handle, seen: Sighting, wanted: ReportState) returns (ok: bool)
      modifies this`file
      ensures ok <==>
        && Loads(old(file))
        && HandleState(h, seen) == Some(wanted)
        && forall l :: l in LeasesIn(old(file)) && l.id == h.id ==> h.Matches(l)
      ensures file == if ok && Holds(LeasesIn(old(file)), h) then Saved(WithoutId(LeasesIn(old(file)), h.id)) else old(file)
    {
      var loaded := Load();
      if loaded.None? {
        return false;
      }
      var leases := loaded.value;
      var target := FindById(leases, h.id);
      if target.None? {
        return HandleState(h, seen) == Some(wanted);
      }
      forall l | l in leases && l.id == h.id
        ensures l == target.value
      {
        IdNamesOneLease(leases, l, target.value);
      }
      if !h.Matches(target.value) || HandleState(h, seen) != Some(wanted) {
        return false;
      }
      FilterKeepsValid(leases, OtherThan(h.id));
      var saved := Save(FlatMap(OtherThan(h.id), leases));
      return true;
    }

    method ClearLeases(selection: ClearSelection) returns (removed: Option<seq<string>>)
      modifies this
      ensures file == AfterClear(old(file), selection)
      ensures backups == if Clears(old(file), selection) then old(backups) + [old(file)] else old(backups)
      ensures selection.All? ==> removed == Some(Ids(LeasesIn(old(file))))
      ensures selection.One? ==> (removed == Some([selection.id]) <==> Clears(old(file), selection))
      ensures removed.None? <==>
        selection.One? && (!ValidRunId(selection.id) || (!old(file).NoFile? && !Loads(old(file))))
    {
      if selection.One? && !ValidRunId(selection.id) {
        return None;
      }
      if file.NoFile? {
        assert Ids([]) == [];
        return Some([]);
      }
      match selection {
        case All =>
          var ids := if file.Stored? then Ids(file.leases) else [];
          assert ids == Ids(LeasesIn(file));
          backups := backups + [file];
          CommitSavesValidLedger(file, ClearAllCommit);
          var saved := Save([]);
          return Some(ids);
        case One(id) =>
          var loaded := Load();
          if loaded.None? {
            return None;
          }
          var target := FindById(loaded.value, id);
          if target.None? {
            return Some([]);
          }
          backups := backups + [file];
          FilterKeepsValid(loaded.value, OtherThan(id));
          var saved := Save(FlatMap(OtherThan(id), loaded.value));
          return Some([id]);
      }
    }
  }

  // A forced request that is presentable, and whose id and path the pruned ledger does not use,
  // is reserved: only its lane count and the range of the totals can stand in its way.
  lemma ForcedReservationSucceeds(file: LedgerFile, view: View, r: ReserveRequest)
    requires Loads(file) && r.request.force && Presentable(r)
    requires Unused(LeasesIn(AfterPrune(file, view)), r)
    requires 1 <= r.request.lanes <= 32
    requires InRange(Totals(LeasesIn(AfterPrune(file, view))).Plus(ExactAmounts(r.request)))
    ensures r.WellFormed() && Enabled(AfterPrune(file, view), AdmitCommit(r))
  {
    ValidRunIdIff(r.id);
    CommitSavesValidLedger(file, PruneCommit(view));
    ForcedIsAdmissible(LeasesIn(AfterPrune(file, view)), r);
  }

  // A clear changes the file exactly when its commit is enabled.
  ghost predicate Clears(file: LedgerFile, selection: ClearSelection) {
    match selection
    case All => Enabled(file, ClearAllCommit)
    case One(id) => ValidRunId(id) && Enabled(file, ClearCommit(id))
  }

  ghost function AfterClear(file: LedgerFile, selection: ClearSelection): LedgerFile {
    if !Clears(file, selection) then file
    else match selection
      case All => Apply(file, ClearAllCommit)
      case One(id) => Apply(file, ClearCommit(id))
  }

  // Clearing one lease of a loadable ledger leaves exactly the others, and any other ledger alone.
  lemma ClearOneEffect(file: LedgerFile, id: string, l: Lease)
    ensures Loads(file) && IsRunId(id) ==>
      (l in LeasesIn(AfterClear(file, One(id))) <==> l in LeasesIn(file) && l.id != id)
    ensures !Loads(file) || !IsRunId(id) || (forall held :: held in LeasesIn(file) ==> held.id != id) ==>
      AfterClear(file, One(id)) == file
  {
    ValidRunIdIff(id);
    LeftWithout(LeasesIn(file), id, l);
  }

  // Clearing all leaves an empty ledger whatever the file held, unless there was none.
  lemma ClearAllEffect(file: LedgerFile)
    ensures AfterClear(file, All) == if file.NoFile? then file else Stored(1, [])
  {
  }

  function Ids(leases: seq<Lease>): seq<string> {
    seq(|leases|, i requires 0 <= i < |leases| => leases[i].id)
  }

  method FindById(leases: seq<Lease>, id: string) returns (found: Option<Lease>)
    ensures found.Some? ==> found.value in leases && found.value.id == id
    ensures found.None? ==> forall l :: l in leases ==> l.id != id
  {
    for i := 0 to |leases|
      invariant forall n :: 0 <= n < i ==> leases[n].id != id
    {
      if leases[i].id == id {
        return Some(leases[i]);
      }
    }
    return None;
  }

  lemma {:induction false} NothingPruned(leases: seq<Lease>, verdict: Lease -> Verdict)
    requires FlatMap(Select(verdict, Drop), leases) == []
    ensures FlatMap(KeepUnless(verdict), leases) == leases
  {
    if leases != [] {
      NothingPruned(leases[..|leases| - 1], verdict);
    }
  }

  // A handle decides once what becomes of its lease; dropping it leaves the lease reserved.
  class ResourceLease {
    const handle: Handle
    var disposition: Disposition

    constructor (handle: Handle)
      ensures this.handle == handle && disposition == Armed
    {
      this.handle := handle;
      this.disposition := Armed;
    }

    method Drop()
      modifies this`disposition
      ensures disposition == if old(disposition) == Armed then Retained else old(disposition)
    {
      if disposition == Armed {
        disposition := Retained;
      }
    }

    method Retain()
      modifies this`disposition
      ensures disposition == Retained
    {
      disposition := Retained;
    }

    method Release(store: LeaseStore, seen: Sighting) returns (ok: bool)
      requires disposition == Armed
      modifies this`disposition, store`file
      ensures disposition == if ok then Released else Retained
      ensures ok <==>
        && Loads(old(store.file))
        && HandleState(handle, seen) == Some(CleanupComplete)
        && forall l :: l in LeasesIn(old(store.file)) && l.id == handle.id ==> handle.Matches(l)
      ensures !ok ==> store.file == old(store.file)
      ensures Enabled(old(store.file), ReleaseCommit(handle, seen)) ==>
        ok && store.file == Apply(old(store.file), ReleaseCommit(handle, seen))
      ensures !Enabled(old(store.file), ReleaseCommit(handle, seen)) ==> store.file == old(store.file)
    {
      HoldingMatches(store.file, handle);
      ok := store.RemoveHeld(handle, seen, CleanupComplete);
      if ok {
        disposition := Released;
      } else {
        Drop();
      }
    }

    method RollbackUnpublished(store: LeaseStore, seen: Sighting) returns (ok: bool)
      requires disposition == Armed
      modifies this`disposition, store`file
      ensures disposition == if ok then Released else Retained
      ensures ok <==>
        && Loads(old(store.file))
        && HandleState(handle, seen) == Some(MissingReport)
        && forall l :: l in LeasesIn(old(store.file)) && l.id == handle.id ==> handle.Matches(l)
      ensures !ok ==> store.file == old(store.file)
      ensures Enabled(old(store.file), RollbackCommit(handle, seen)) ==>
        ok && store.file == Apply(old(store.file), RollbackCommit(handle, seen))
      ensures !Enabled(old(store.file), RollbackCommit(handle, seen)) ==> store.file == old(store.file)
    {
      HoldingMatches(store.file, handle);
      ok := store.RemoveHeld(handle, seen, MissingReport);
      if ok {
        disposition := Released;
      } else {
        Drop();
      }
    }
  }

  lemma HoldingMatches(file: LedgerFile, h: Handle)
    ensures Loads(file) && Holds(LeasesIn(file), h) ==> forall l :: l in LeasesIn(file) && l.id == h.id ==> h.Matches(l)
  {
    var leases := LeasesIn(file);
    if Loads(file) && Holds(leases, h) {
      var held :| held in leases && held.id == h.id && h.Matches(held);
      forall l | l in leases && l.id == h.id
        ensures h.Matches(l)
      {
        IdNamesOneLease(leases, l, held);
      }
    }
  }
}
