/** The durable ledger of resource leases: validation, totals, order on disk, and pruning. */
module LeaseLedger {
  import opened Common
  import opened Paths
  import opened Resources
  import opened RunReports

  datatype Lease = Lease(
    id: string,
    ownerPid: u32,
    ownerIdentity: Option<string>,
    reportPath: Path,
    lanes: u64,
    memoryMb: u64,
    cpus: u64,
    diskBytes: u64,
    forced: bool,
    createdAt: u64
  ) {
    function Amount(): Amounts {
      Amounts(lanes, memoryMb, cpus, diskBytes)
    }
  }

  const LEDGER_VERSION := 1

  // The ledger file: never written, unreadable as a ledger, or a list of leases.
  datatype LedgerFile = NoFile | Garbage(bytes: string) | Stored(version: nat, leases: seq<Lease>)

  predicate ValidRecord(l: Lease) {
    && ValidRunId(l.id)
    && l.ownerPid != 0
    && l.ownerIdentity != Some("")
    && l.reportPath.absolute
    && 1 <= l.lanes <= MAX_CONCURRENT_LANES
    && l.memoryMb != 0 && l.cpus != 0
    && l.createdAt != 0
  }

  predicate Clash(a: Lease, b: Lease) {
    a.id == b.id || a.reportPath == b.reportPath
  }

  const COMPATIBLE: (Lease, Lease) -> bool := (a: Lease, b: Lease) => !Clash(a, b)

  ghost predicate NoClash(leases: seq<Lease>) {
    Pairwise(COMPATIBLE, leases)
  }

  function Totals(leases: seq<Lease>): Amounts {
    if leases == [] then NOTHING else Totals(leases[..|leases| - 1]).Plus(leases[|leases| - 1].Amount())
  }

  ghost predicate ValidLeases(leases: seq<Lease>) {
    && (forall l :: l in leases ==> ValidRecord(l))
    && NoClash(leases)
    && Totals(leases).FitsU64()
  }

  // `load`: a missing file is an empty ledger; anything else must validate.
  ghost predicate Loads(file: LedgerFile) {
    file.NoFile? || (file.Stored? && file.version == LEDGER_VERSION && ValidLeases(file.leases))
  }

  function LeasesIn(file: LedgerFile): seq<Lease> {
    if file.Stored? then file.leases else []
  }

  lemma {:induction false} PrefixTotalsAtMost(leases: seq<Lease>, n: nat)
    requires n <= |leases|
    ensures Totals(leases[..n]).AtMost(Totals(leases))
  {
    if n < |leases| {
      PrefixTotalsAtMost(leases[..|leases| - 1], n);
      assert leases[..|leases| - 1][..n] == leases[..n];
    } else {
      assert leases[..n] == leases;
    }
  }

  lemma TotalsExtend(leases: seq<Lease>, n: nat)
    requires n < |leases|
    ensures Totals(leases[..n + 1]) == Totals(leases[..n]).Plus(leases[n].Amount())
  {
    assert leases[..n + 1][..n] == leases[..n];
  }

  lemma TotalsAppend(leases: seq<Lease>, l: Lease)
    ensures Totals(leases + [l]) == Totals(leases).Plus(l.Amount())
  {
    assert (leases + [l])[..|leases|] == leases;
  }

  // The checked running sums fail exactly when some exact total does not fit.
  method Reserved(leases: seq<Lease>) returns (reserved: Option<Amounts>)
    ensures reserved == if Totals(leases).FitsU64() then Some(Totals(leases)) else None
  {
    var sum := NOTHING;
    for i := 0 to |leases|
      invariant sum == Totals(leases[..i]) && sum.FitsU64()
    {
      TotalsExtend(leases, i);
      var next := Combine(sum, leases[i].Amount());
      if next.None? {
        PrefixTotalsAtMost(leases, i + 1);
        return None;
      }
      sum := next.value;
    }
    assert leases[..|leases|] == leases;
    return Some(sum);
  }

  method Validate(version: nat, leases: seq<Lease>) returns (ok: bool)
    ensures ok <==> version == LEDGER_VERSION && ValidLeases(leases)
  {
    if version != LEDGER_VERSION {
      return false;
    }
    var ids: set<string> := {};
    var reports: set<Path> := {};
    for i := 0 to |leases|
      invariant forall id :: id in ids <==> exists n :: 0 <= n < i && leases[n].id == id
      invariant forall path :: path in reports <==> exists n :: 0 <= n < i && leases[n].reportPath == path
      invariant forall n :: 0 <= n < i ==> ValidRecord(leases[n])
      invariant forall m, n :: 0 <= m < n < i ==> !Clash(leases[m], leases[n])
    {
      var l := leases[i];
      if !ValidRecord(l) || l.id in ids || l.reportPath in reports {
        return false;
      }
      ids := ids + {l.id};
      reports := reports + {l.reportPath};
    }
    var reserved := Reserved(leases);
    return reserved.Some?;
  }

  // ----- Order on disk -----

  predicate StringLess(a: string, b: string)
    decreases |a|
  {
    b != "" && (a == "" || a[0] < b[0] || (a[0] == b[0] && StringLess(a[1..], b[1..])))
  }

  function InsertById(l: Lease, sorted: seq<Lease>): seq<Lease> {
    if sorted == [] || StringLess(l.id, sorted[0].id) then [l] + sorted
    else [sorted[0]] + InsertById(l, sorted[1..])
  }

  function SortById(leases: seq<Lease>): seq<Lease> {
    if leases == [] then [] else InsertById(leases[|leases| - 1], SortById(leases[..|leases| - 1]))
  }

  lemma {:induction false} InsertByIdMembers(l: Lease, sorted: seq<Lease>, x: Lease)
    ensures x in InsertById(l, sorted) <==> x == l || x in sorted
  {
    if sorted != [] && !StringLess(l.id, sorted[0].id) {
      InsertByIdMembers(l, sorted[1..], x);
      assert sorted == [sorted[0]] + sorted[1..];
    }
  }

  lemma {:induction false} InsertByIdTotals(l: Lease, sorted: seq<Lease>)
    ensures Totals(InsertById(l, sorted)) == Totals(sorted).Plus(l.Amount())
  {
    if sorted == [] || StringLess(l.id, sorted[0].id) {
      TotalsPrepend(l, sorted);
    } else {
      InsertByIdTotals(l, sorted[1..]);
      TotalsPrepend(sorted[0], sorted[1..]);
      TotalsPrepend(sorted[0], InsertById(l, sorted[1..]));
      assert sorted == [sorted[0]] + sorted[1..];
    }
  }

  lemma {:induction false} InsertByIdNoClash(l: Lease, sorted: seq<Lease>)
    ensures NoClash(InsertById(l, sorted)) <==> NoClash(sorted) && RelatedToAll(COMPATIBLE, sorted, l)
  {
    if sorted == [] || StringLess(l.id, sorted[0].id) {
      PairwisePrepend(COMPATIBLE, sorted, l);
    } else {
      var head, rest := sorted[0], sorted[1..];
      assert sorted == [head] + rest;
      InsertByIdNoClash(l, rest);
      PairwisePrepend(COMPATIBLE, rest, head);
      PairwisePrepend(COMPATIBLE, InsertById(l, rest), head);
      InsertedRelated(head, l, rest);
    }
  }

  lemma InsertedRelated(head: Lease, l: Lease, rest: seq<Lease>)
    ensures RelatedToAll(COMPATIBLE, InsertById(l, rest), head) <==>
            RelatedToAll(COMPATIBLE, rest, head) && COMPATIBLE(l, head)
    ensures RelatedToAll(COMPATIBLE, [head] + rest, l) <==>
            RelatedToAll(COMPATIBLE, rest, l) && COMPATIBLE(head, l)
  {
    RelatedToAllMembers(COMPATIBLE, InsertById(l, rest), head);
    RelatedToAllMembers(COMPATIBLE, rest, head);
    RelatedToAllMembers(COMPATIBLE, [head] + rest, l);
    RelatedToAllMembers(COMPATIBLE, rest, l);
    assert forall x :: x in [head] + rest <==> x == head || x in rest;
    forall x
      ensures x in InsertById(l, rest) <==> x == l || x in rest
    {
      InsertByIdMembers(l, rest, x);
    }
  }

  lemma {:induction false} TotalsPrepend(l: Lease, rest: seq<Lease>)
    ensures Totals([l] + rest) == Totals(rest).Plus(l.Amount())
  {
    if rest != [] {
      assert ([l] + rest)[..|rest|] == [l] + rest[..|rest| - 1];
      TotalsPrepend(l, rest[..|rest| - 1]);
    } else {
      assert [l] + rest == [l] && [l][..0] == [];
    }
  }

  // Sorting keeps the leases, their totals and their validity.
  lemma {:induction false} SortKeeps(leases: seq<Lease>)
    ensures forall x :: x in SortById(leases) <==> x in leases
    ensures Totals(SortById(leases)) == Totals(leases)
    ensures NoClash(SortById(leases)) <==> NoClash(leases)
    ensures ValidLeases(SortById(leases)) <==> ValidLeases(leases)
  {
    if leases != [] {
      var init, last := leases[..|leases| - 1], leases[|leases| - 1];
      assert leases == init + [last];
      SortKeeps(init);
      forall x
        ensures x in SortById(leases) <==> x == last || x in SortById(init)
      {
        InsertByIdMembers(last, SortById(init), x);
      }
      InsertByIdTotals(last, SortById(init));
      InsertByIdNoClash(last, SortById(init));
      RelatedToAllMembers(COMPATIBLE, init, last);
      RelatedToAllMembers(COMPATIBLE, SortById(init), last);
      PairwiseAppend(COMPATIBLE, init, last);
    }
  }

  ghost predicate OrderedById(leases: seq<Lease>) {
    forall i :: 0 < i < |leases| ==> !StringLess(leases[i].id, leases[i - 1].id)
  }

  lemma {:induction false} StringLessIsAsymmetric(a: string, b: string)
    requires StringLess(a, b)
    ensures !StringLess(b, a)
  {
    if a != "" && a[0] == b[0] {
      StringLessIsAsymmetric(a[1..], b[1..]);
    }
  }

  lemma {:induction false} InsertByIdKeepsOrder(l: Lease, sorted: seq<Lease>)
    requires OrderedById(sorted)
    ensures OrderedById(InsertById(l, sorted))
    ensures InsertById(l, sorted)[0] == l || (sorted != [] && InsertById(l, sorted)[0] == sorted[0])
  {
    if sorted != [] {
      if StringLess(l.id, sorted[0].id) {
        StringLessIsAsymmetric(l.id, sorted[0].id);
      } else {
        var rest := sorted[1..];
        assert forall i :: 0 < i < |rest| ==> rest[i] == sorted[i + 1] && rest[i - 1] == sorted[i];
        InsertByIdKeepsOrder(l, rest);
        assert rest != [] ==> rest[0] == sorted[1] && !StringLess(sorted[1].id, sorted[1 - 1].id);
      }
    }
  }

  // The saved ledger is in the order of its ids.
  lemma {:induction false} SortOrders(leases: seq<Lease>)
    ensures OrderedById(SortById(leases))
  {
    if leases != [] {
      SortOrders(leases[..|leases| - 1]);
      InsertByIdKeepsOrder(leases[|leases| - 1], SortById(leases[..|leases| - 1]));
    }
  }

  // ----- Pruning -----

  datatype ReportRead = Absent | Unreadable | Found(content: Content)

  datatype ReportState = MissingReport | PendingReport | CleanupComplete

  // A report read for a lease: `durable` tells whether rewriting it durably succeeds.
  function ReportStateOf(read: ReportRead, durable: bool, expectedId: string): Option<ReportState> {
    match read
    case Absent => Some(MissingReport)
    case Unreadable => None
    case Found(content) =>
      var report := if content.Document? then ParseReport(content.document) else None;
      if report.None? || report.value.runId != expectedId || report.value.kind.UnknownKind? then None
      else if report.value.cleanup != Complete then Some(PendingReport)
      else if durable then Some(CleanupComplete)
      else None
  }

  // What a prune learns about one lease.
  datatype Sighting = Sighting(read: ReportRead, durable: bool, ownerAlive: bool)

  type View = Lease -> Sighting

  function StateSeen(l: Lease, view: View): Option<ReportState> {
    ReportStateOf(view(l).read, view(l).durable, l.id)
  }

  // The lease may go: its report proves complete cleanup, or it never had one and its owner is gone.
  predicate Expired(l: Lease, view: View) {
    var state := StateSeen(l, view);
    state == Some(CleanupComplete) || (state == Some(MissingReport) && !view(l).ownerAlive)
  }

  datatype Verdict = Keep | Quarantine | Drop

  function VerdictOf(view: View): Lease -> Verdict {
    (l: Lease) => if Expired(l, view) then Drop else if StateSeen(l, view).None? then Quarantine else Keep
  }

  function KeepUnless(verdict: Lease -> Verdict): Lease -> seq<Lease> {
    (l: Lease) => if verdict(l) == Drop then [] else [l]
  }

  // The ids of the leases with a given verdict.
  function Select(verdict: Lease -> Verdict, wanted: Verdict): Lease -> seq<string> {
    (l: Lease) => if verdict(l) == wanted then [l.id] else []
  }

  function Pruned(leases: seq<Lease>, view: View): seq<Lease> {
    FlatMap(KeepUnless(VerdictOf(view)), leases)
  }

  method Judge(l: Lease, view: View) returns (verdict: Verdict)
    ensures verdict == VerdictOf(view)(l)
  {
    var state := StateSeen(l, view);
    if state.None? {
      return Quarantine;
    }
    var reportFinished := state.value == CleanupComplete;
    var abandonedBeforeReport := state.value == MissingReport && !view(l).ownerAlive;
    return if reportFinished || abandonedBeforeReport then Drop else Keep;
  }

  // The diagnostics name the leases whose report could not be verified; all are retained.
  method Prune(leases: seq<Lease>, view: View) returns (retained: seq<Lease>, changed: bool, diagnostics: seq<string>)
    ensures retained == Pruned(leases, view)
    ensures changed <==> FlatMap(Select(VerdictOf(view), Drop), leases) != []
    ensures diagnostics == FlatMap(Select(VerdictOf(view), Quarantine), leases)
  {
    var verdict := VerdictOf(view);
    retained := [];
    changed := false;
    diagnostics := [];
    for i := 0 to |leases|
      invariant retained == FlatMap(KeepUnless(verdict), leases[..i])
      invariant changed <==> FlatMap(Select(verdict, Drop), leases[..i]) != []
      invariant diagnostics == FlatMap(Select(verdict, Quarantine), leases[..i])
    {
      FlatMapExtends(Select(verdict, Drop), leases, i);
      FlatMapExtends(Select(verdict, Quarantine), leases, i);
      FlatMapExtends(KeepUnless(verdict), leases, i);
      var judged := Judge(leases[i], view);
      if judged == Drop {
        changed := true;
        continue;
      }
      if judged == Quarantine {
        diagnostics := diagnostics + [leases[i].id];
      }
      retained := retained + [leases[i]];
    }
    assert leases[..|leases|] == leases;
  }

  lemma PrunedMembers(leases: seq<Lease>, view: View, l: Lease)
    ensures l in Pruned(leases, view) <==> l in leases && !Expired(l, view)
  {
    FlatMapMembers(KeepUnless(VerdictOf(view)), leases, l);
    if l in Pruned(leases, view) {
      var i :| 0 <= i < |leases| && l in KeepUnless(VerdictOf(view))(leases[i]);
    }
    if l in leases && !Expired(l, view) {
      var i :| 0 <= i < |leases| && leases[i] == l;
      assert l in KeepUnless(VerdictOf(view))(leases[i]);
    }
  }

  // Removing leases keeps a ledger valid and lowers its totals.
  lemma {:induction false} FilterKeepsValid(leases: seq<Lease>, keep: Lease -> seq<Lease>)
    requires forall l :: keep(l) == [] || keep(l) == [l]
    ensures forall l :: l in FlatMap(keep, leases) ==> l in leases
    ensures Totals(FlatMap(keep, leases)).AtMost(Totals(leases))
    ensures NoClash(leases) ==> NoClash(FlatMap(keep, leases))
    ensures ValidLeases(leases) ==> ValidLeases(FlatMap(keep, leases))
  {
    if leases != [] {
      var init, last := leases[..|leases| - 1], leases[|leases| - 1];
      assert leases == init + [last];
      FilterKeepsValid(init, keep);
      TotalsAppend(FlatMap(keep, init), last);
      PairwiseAppend(COMPATIBLE, init, last);
      PairwiseAppend(COMPATIBLE, FlatMap(keep, init), last);
      RelatedToAllMembers(COMPATIBLE, init, last);
      RelatedToAllMembers(COMPATIBLE, FlatMap(keep, init), last);
      assert keep(last) == [] ==> FlatMap(keep, init) + keep(last) == FlatMap(keep, init);
    }
  }

  function OtherThan(id: string): Lease -> seq<Lease> {
    (l: Lease) => if l.id == id then [] else [l]
  }

  function WithoutId(leases: seq<Lease>, id: string): seq<Lease> {
    FlatMap(OtherThan(id), leases)
  }

  lemma WithoutIdMembers(leases: seq<Lease>, id: string, l: Lease)
    ensures l in WithoutId(leases, id) <==> l in leases && l.id != id
  {
    FlatMapMembers(OtherThan(id), leases, l);
    if l in WithoutId(leases, id) {
      var i :| 0 <= i < |leases| && l in OtherThan(id)(leases[i]);
    }
    if l in leases && l.id != id {
      var i :| 0 <= i < |leases| && leases[i] == l;
      assert l in OtherThan(id)(leases[i]);
    }
  }

  // In a valid ledger an id names at most one lease.
  lemma IdNamesOneLease(leases: seq<Lease>, a: Lease, b: Lease)
    requires NoClash(leases) && a in leases && b in leases && a.id == b.id
    ensures a == b
  {
    var i :| 0 <= i < |leases| && leases[i] == a;
    var j :| 0 <= j < |leases| && leases[j] == b;
    assert !COMPATIBLE(leases[i], leases[j]) && !COMPATIBLE(leases[j], leases[i]);
  }

  // ----- What loads, what a report shows and what expires, in plain terms -----

  ghost predicate RecordInOrder(l: Lease) {
    && IsRunId(l.id)
    && l.ownerPid > 0
    && (l.ownerIdentity.Some? ==> l.ownerIdentity.value != "")
    && l.reportPath.absolute
    && 1 <= l.lanes <= 32
    && l.memoryMb > 0 && l.cpus > 0
    && l.createdAt > 0
  }

  // A ledger loads exactly when it is missing, or of version 1 with every record in order, no two
  // sharing an id or a report path, and all totals within 64 bits.
  lemma LoadsIff(file: LedgerFile)
    ensures Loads(file) <==>
      || file.NoFile?
      || (&& file.Stored? && file.version == 1
          && (forall l :: l in file.leases ==> RecordInOrder(l))
          && (forall i, j :: 0 <= i < j < |file.leases| ==>
                file.leases[i].id != file.leases[j].id && file.leases[i].reportPath != file.leases[j].reportPath)
          && InRange(Totals(file.leases)))
  {
    forall l: Lease
      ensures ValidRecord(l) <==> RecordInOrder(l)
    {
      ValidRunIdIff(l.id);
    }
  }

  lemma TotalsAddUp(leases: seq<Lease>, l: Lease)
    ensures Totals([]) == Amounts(0, 0, 0, 0)
    ensures
      var before, after := Totals(leases), Totals(leases + [l]);
      && after.lanes == before.lanes + l.lanes && after.memoryMb == before.memoryMb + l.memoryMb
      && after.cpus == before.cpus + l.cpus && after.diskBytes == before.diskBytes + l.diskBytes
  {
    TotalsAppend(leases, l);
  }

  // A readable report of the run, of a known kind.
  ghost predicate ReportNames(read: ReportRead, runId: string, kind: string, status: string) {
    && read.Found? && read.content.Document?
    && TextAt(read.content.document, ["run_id"], runId)
    && TextAt(read.content.document, ["kind"], kind) && kind in KIND_TEXTS
    && TextAt(read.content.document, ["status"], status)
  }

  ghost predicate ReportProves(read: ReportRead, runId: string) {
    exists kind, status :: ReportNames(read, runId, kind, status) && status in TERMINAL_TEXTS && ProofOf(read.content.document, kind)
  }

  // A missing report is missing; a report of this run and of a known kind is complete if it
  // proves cleanup and can be made durable, and pending if it does not prove it; anything else
  // cannot be verified.
  lemma ReportStateIff(read: ReportRead, durable: bool, runId: string)
    ensures
      var state := ReportStateOf(read, durable, runId);
      && (state == Some(MissingReport) <==> read == Absent)
      && (state == Some(CleanupComplete) <==> durable && ReportProves(read, runId))
      && (state == Some(PendingReport) <==>
            !ReportProves(read, runId) && exists kind, status :: ReportNames(read, runId, kind, status))
  {
    if read.Found? && read.content.Document? {
      var document := read.content.document;
      forall kind, status
        ensures
          ReportNames(read, runId, kind, status) <==>
          && ParseReport(document).Some? && ParseReport(document).value.runId == runId
          && !ParseReport(document).value.kind.UnknownKind?
          && ParseReport(document).value.kind == ParseKind(kind) && ParseReport(document).value.status == ParseStatus(status)
        ensures ReportNames(read, runId, kind, status) ==>
          (ParseReport(document).value.cleanup == Complete <==> status in TERMINAL_TEXTS && ProofOf(document, kind))
      {
        ReportIff(document, runId, kind, status);
        KindsReadBack(kind, ParseKind(kind));
      }
      if ParseReport(document).Some? {
        var report := ParseReport(document).value;
        KindsReadBack(document.GetStr("kind").value, report.kind);
        StatusesReadBack(document.GetStr("status").value, report.status);
      }
    }
  }

  lemma ExpiredIff(l: Lease, view: View)
    ensures Expired(l, view) <==>
      (view(l).durable && ReportProves(view(l).read, l.id)) || (view(l).read == Absent && !view(l).ownerAlive)
  {
    ReportStateIff(view(l).read, view(l).durable, l.id);
  }

  // A prune changes the ledger exactly when some lease has expired, and its diagnostics name
  // exactly the leases whose report cannot be verified.
  lemma PruneFindings(leases: seq<Lease>, view: View, id: string)
    ensures FlatMap(Select(VerdictOf(view), Drop), leases) != [] <==> exists l :: l in leases && Expired(l, view)
    ensures id in FlatMap(Select(VerdictOf(view), Quarantine), leases) <==>
            exists l :: l in leases && l.id == id && StateSeen(l, view).None?
  {
    FlatMapIsEmpty(Select(VerdictOf(view), Drop), leases);
    FlatMapMembers(Select(VerdictOf(view), Quarantine), leases, id);
    forall l | l in leases
      ensures exists i :: 0 <= i < |leases| && leases[i] == l
    {
    }
  }

  // The order of ids is the order of strings by code point, a proper prefix coming first.
  lemma {:induction false} StringLessIff(a: string, b: string)
    ensures StringLess(a, b) <==>
      exists n :: 0 <= n <= |a| && n < |b| && a[..n] == b[..n] && (n == |a| || a[n] < b[n])
    decreases |a|
  {
    if b != "" && a != "" && a[0] == b[0] {
      StringLessIff(a[1..], b[1..]);
      if n :| 0 <= n <= |a| && n < |b| && a[..n] == b[..n] && (n == |a| || a[n] < b[n]) {
        assert a[1..][..n - 1] == a[..n][1..] && b[1..][..n - 1] == b[..n][1..];
      }
      if n :| 0 <= n <= |a[1..]| && n < |b[1..]| && a[1..][..n] == b[1..][..n] && (n == |a[1..]| || a[1..][n] < b[1..][n]) {
        assert a[..n + 1] == [a[0]] + a[1..][..n] && b[..n + 1] == [b[0]] + b[1..][..n];
      }
    } else {
      if b != "" && (a == "" || a[0] < b[0]) {
        assert a[..0] == b[..0];
      }
      if n :| 0 < n <= |a| && n < |b| && a[..n] == b[..n] {
        assert a[..n][0] == b[..n][0];
      }
    }
  }
}
