/**
 Run reports of the development environments, and the classifier that decides whether a
 report proves that everything the run started has been cleaned up.
 */
module RunReports {
  import opened Common
  import opened JsonValues
  import opened Strings

  datatype ReportKind = Environment | Flow | ImageImport | EnvironmentBatch | FlowFanout | UnknownKind(text: string)

  datatype ReportStatus =
    | Preparing | Starting | Running | Stopping | Recovering | Cancelling
    | Pass | Failed | Skipped | Cancelled | Stopped | Abandoned
    | CleanupIncomplete | RollbackIncomplete | CancellationCleanupIncomplete
    | UnknownStatus(text: string)
  {
    predicate IsActive() {
      this in {Preparing, Starting, Running, Stopping, Recovering, Cancelling}
    }

    predicate IsTerminal() {
      this in {Pass, Failed, Skipped, Cancelled, Stopped, Abandoned}
    }

    predicate SaysIncomplete() {
      this in {CleanupIncomplete, RollbackIncomplete, CancellationCleanupIncomplete}
    }
  }

  datatype CleanupState = Pending | Complete | Incomplete

  function ParseKind(text: string): ReportKind {
    if text == "environment" then Environment
    else if text == "flow" then Flow
    else if text == "image-import" then ImageImport
    else if text == "environment-batch" then EnvironmentBatch
    else if text == "flow-fanout" then FlowFanout
    else UnknownKind(text)
  }

  function ParseStatus(text: string): ReportStatus {
    if text == "preparing" then Preparing
    else if text == "starting" then Starting
    else if text == "running" then Running
    else if text == "stopping" then Stopping
    else if text == "recovering" then Recovering
    else if text == "cancelling" then Cancelling
    else if text == "pass" then Pass
    else if text == "failed" then Failed
    else if text == "skipped" then Skipped
    else if text == "cancelled" then Cancelled
    else if text == "stopped" then Stopped
    else if text == "abandoned" then Abandoned
    else if text == "cleanup-incomplete" then CleanupIncomplete
    else if text == "rollback-incomplete" then RollbackIncomplete
    else if text == "cancellation-cleanup-incomplete" then CancellationCleanupIncomplete
    else UnknownStatus(text)
  }

  const MAX_RUN_ID_LEN := 64

  // The source counts bytes; an accepted id is ASCII, so characters give the same length.
  predicate ValidRunId(id: string) {
    && 0 < |id| <= MAX_RUN_ID_LEN
    && IsAsciiAlphanumeric(id[0])
    && forall i :: 0 < i < |id| ==> IsAsciiAlphanumeric(id[i]) || id[i] == '-' || id[i] == '_'
  }

  // ----- Lane lists -----

  predicate NamesItsRun(lane: Json) {
    lane.GetStr("run_id").Some? && ValidRunId(lane.GetStr("run_id").value)
  }

  function RunIdOf(lane: Json): string {
    if lane.GetStr("run_id").Some? then lane.GetStr("run_id").value else ""
  }

  function RunIds(lanes: seq<Json>): seq<string> {
    seq(|lanes|, i requires 0 <= i < |lanes| => RunIdOf(lanes[i]))
  }

  // The ids of the lanes, if every lane has a valid one and no two agree.
  function LaneRunIds(lanes: seq<Json>): Option<seq<string>> {
    if (forall i :: 0 <= i < |lanes| ==> NamesItsRun(lanes[i])) && Distinct(RunIds(lanes)) then Some(RunIds(lanes))
    else None
  }

  method ValidatedLaneRunIds(lanes: seq<Json>) returns (ids: Option<seq<string>>)
    ensures ids == LaneRunIds(lanes)
  {
    var seen: set<string> := {};
    var runIds: seq<string> := [];
    for i := 0 to |lanes|
      invariant runIds == RunIds(lanes)[..i]
      invariant forall n :: 0 <= n < i ==> NamesItsRun(lanes[n])
      invariant forall id :: id in seen <==> id in runIds
      invariant Distinct(runIds)
    {
      var id := lanes[i].GetStr("run_id");
      if id.None? || !ValidRunId(id.value) {
        return None;
      }
      assert RunIds(lanes)[i] == id.value;
      if id.value in seen {
        var n :| 0 <= n < i && runIds[n] == id.value;
        assert RunIds(lanes)[n] == RunIds(lanes)[i];
        return None;
      }
      seen := seen + {id.value};
      runIds := runIds + [id.value];
    }
    assert runIds == RunIds(lanes);
    return Some(runIds);
  }

  function RequestedLanes(document: Json, kind: ReportKind): Option<nat> {
    match kind
    case EnvironmentBatch => LookupU64(document, ["launch", "count"])
    case FlowFanout => LookupU64(document, ["workflow", "repeat"])
    case _ => Some(1)
  }

  function LookupU64(document: Json, path: seq<string>): Option<nat> {
    var found := Lookup(document, path);
    if found.Some? then found.value.AsU64() else None
  }

  function LookupArray(document: Json, path: seq<string>): Option<seq<Json>> {
    var found := Lookup(document, path);
    if found.Some? && found.value.Array? then Some(found.value.items) else None
  }

  function LaneField(kind: ReportKind): Option<string> {
    match kind
    case EnvironmentBatch => Some("runs")
    case FlowFanout => Some("lanes")
    case _ => None
  }

  function SessionLaneRunIds(document: Json, kind: ReportKind): Option<seq<string>> {
    if LaneField(kind).None? then None
    else
      var requested := RequestedLanes(document, kind);
      var lanes := LookupArray(document, [LaneField(kind).value]);
      if requested.None? || requested.value == 0 || lanes.None? || requested.value != |lanes.value| then None
      else LaneRunIds(lanes.value)
  }

  // ----- The classifier -----

  function CleanupOf(document: Json, kind: ReportKind, status: ReportStatus): CleanupState {
    if kind in {Environment, Flow, ImageImport} then ChildCleanup(document, status)
    else if status.IsActive() || status.UnknownStatus? then Pending
    else if status.SaysIncomplete() then Incomplete
    else match kind
      case EnvironmentBatch => BatchCleanup(document)
      case FlowFanout => FanoutCleanup(document)
      case _ => Pending
  }

  predicate ProvesCleanup(value: Json) {
    Lookup(value, ["cleanup", "complete"]) == Some(Bool(true))
  }

  predicate PayloadClean(document: Json) {
    var payload := document.Get("payload");
    payload.None? || payload.value.Null? || ProvesCleanup(payload.value)
  }

  function BatchCleanup(document: Json): CleanupState {
    var owned := SessionLaneRunIds(document, EnvironmentBatch);
    if owned.None? then Incomplete
    else if document.Get("teardown").None? then Incomplete
    else
      var teardown := document.Get("teardown").value;
      var lanes := LookupArray(teardown, ["lanes"]);
      if teardown.GetStr("status") != Some("complete") then Incomplete
      else if lanes.None? || LaneRunIds(lanes.value).None? then Incomplete
      else if (set id | id in owned.value) != (set id | id in LaneRunIds(lanes.value).value) then Incomplete
      else if exists i :: 0 <= i < |lanes.value| && !TeardownVerified(lanes.value[i]) then Incomplete
      else if PayloadClean(document) then Complete
      else Incomplete
  }

  predicate TeardownVerified(lane: Json) {
    && lane.GetStr("status") == Some("pass")
    && (lane.Get("stop_error").Some? ==> lane.Get("stop_error").value.Null?)
    && var verification := lane.GetStr("verification");
       if verification in {Some("not-started"), Some("swept-stale-launch")} then
         lane.Get("report_status").Some? ==> lane.Get("report_status").value.Null?
       else
         && verification == Some("verified-cleanup")
         && lane.GetStr("report_status").Some?
         && ParseStatus(lane.GetStr("report_status").value).IsTerminal()
  }

  function FanoutCleanup(document: Json): CleanupState {
    if SessionLaneRunIds(document, FlowFanout).None? then Incomplete
    else
      var lanes := LookupArray(document, ["lanes"]).value;
      if exists i :: 0 <= i < |lanes| && !ProvesCleanup(lanes[i]) then Incomplete
      else if !PreparationClean(document) then Incomplete
      else if PayloadClean(document) then Complete
      else Incomplete
  }

  predicate PreparationClean(document: Json) {
    var preparation := document.Get("preparation");
    preparation.Some? ==> forall phase :: phase in ["build", "iso"] ==>
      Lookup(preparation.value, [phase, "cleanup", "complete"]) == Some(Bool(true))
  }

  function ChildCleanup(document: Json, status: ReportStatus): CleanupState {
    if status.IsActive() || status.UnknownStatus? then Pending
    else if status.SaysIncomplete() then Incomplete
    else
      var teardown := document.Get("teardown");
      if teardown.None? || teardown.value.Null? then Incomplete
      else if
        && teardown.value.GetStr("status") == Some("complete")
        && teardown.value.HasTrue("qemu_exit_verified")
        && teardown.value.HasTrue("tree_exit_verified")
        && (document.GetStr("kind") == Some("image-import") ==> teardown.value.HasTrue("staging_removed"))
      then Complete
      else Incomplete
  }

  // ----- The texts of a report -----

  const KIND_TEXTS := {"environment", "flow", "image-import", "environment-batch", "flow-fanout"}
  const ACTIVE_TEXTS := {"preparing", "starting", "running", "stopping", "recovering", "cancelling"}
  const TERMINAL_TEXTS := {"pass", "failed", "skipped", "cancelled", "stopped", "abandoned"}
  const INCOMPLETE_TEXTS := {"cleanup-incomplete", "rollback-incomplete", "cancellation-cleanup-incomplete"}

  function KindText(kind: ReportKind): string {
    match kind
    case Environment => "environment"
    case Flow => "flow"
    case ImageImport => "image-import"
    case EnvironmentBatch => "environment-batch"
    case FlowFanout => "flow-fanout"
    case UnknownKind(text) => text
  }

  function StatusText(status: ReportStatus): string {
    match status
    case Preparing => "preparing"
    case Starting => "starting"
    case Running => "running"
    case Stopping => "stopping"
    case Recovering => "recovering"
    case Cancelling => "cancelling"
    case Pass => "pass"
    case Failed => "failed"
    case Skipped => "skipped"
    case Cancelled => "cancelled"
    case Stopped => "stopped"
    case Abandoned => "abandoned"
    case CleanupIncomplete => "cleanup-incomplete"
    case RollbackIncomplete => "rollback-incomplete"
    case CancellationCleanupIncomplete => "cancellation-cleanup-incomplete"
    case UnknownStatus(text) => text
  }

  // Parsing and printing are inverse; only a text that is none of the known ones is unknown.
  lemma KindsReadBack(text: string, kind: ReportKind)
    ensures KindText(ParseKind(text)) == text
    ensures ParseKind(text).UnknownKind? <==> text !in KIND_TEXTS
    ensures kind.UnknownKind? || ParseKind(KindText(kind)) == kind
  {
  }

  lemma StatusesReadBack(text: string, status: ReportStatus)
    ensures StatusText(ParseStatus(text)) == text
    ensures status.UnknownStatus? || ParseStatus(StatusText(status)) == status
  {
  }

  // Every status is of exactly one class.
  lemma StatusClasses(text: string)
    ensures ParseStatus(text).IsActive() <==> text in ACTIVE_TEXTS
    ensures ParseStatus(text).IsTerminal() <==> text in TERMINAL_TEXTS
    ensures ParseStatus(text).SaysIncomplete() <==> text in INCOMPLETE_TEXTS
    ensures ParseStatus(text).UnknownStatus? <==> text !in ACTIVE_TEXTS + TERMINAL_TEXTS + INCOMPLETE_TEXTS
  {
  }

  // ----- What a complete report proves, read off the document -----

  ghost predicate TextAt(j: Json, path: seq<string>, text: string) {
    Lookup(j, path) == Some(Str(text))
  }

  ghost predicate TrueAt(j: Json, path: seq<string>) {
    Lookup(j, path) == Some(Bool(true))
  }

  ghost predicate AbsentOrNull(j: Json, key: string) {
    Lookup(j, [key]) in {None, Some(Null)}
  }

  // One to 64 ASCII letters, digits, dashes and underscores, of which the first is a letter or digit.
  ghost predicate IsRunId(id: string) {
    && 1 <= |id| <= 64
    && forall i :: 0 <= i < |id| ==>
         || 'a' <= id[i] <= 'z' || 'A' <= id[i] <= 'Z' || '0' <= id[i] <= '9'
         || (i > 0 && (id[i] == '-' || id[i] == '_'))
  }

  lemma ValidRunIdIff(id: string)
    ensures ValidRunId(id) <==> IsRunId(id)
  {
    if IsRunId(id) {
      assert forall i :: 0 < i < |id| ==> IsAsciiAlphanumeric(id[i]) || id[i] == '-' || id[i] == '_';
    }
  }

  // The lanes are named by these ids.
  ghost predicate HasIds(lanes: seq<Json>, ids: seq<string>) {
    |ids| == |lanes| && forall i :: 0 <= i < |lanes| ==> TextAt(lanes[i], ["run_id"], ids[i]) && IsRunId(ids[i])
  }

  lemma LaneRunIdsIff(lanes: seq<Json>, ids: seq<string>)
    ensures LaneRunIds(lanes) == Some(ids) <==> HasIds(lanes, ids) && Distinct(ids)
  {
    forall i | 0 <= i < |lanes|
      ensures forall id :: TextAt(lanes[i], ["run_id"], id) && IsRunId(id) <==> NamesItsRun(lanes[i]) && RunIdOf(lanes[i]) == id
    {
      IdIff(lanes[i]);
    }
    if HasIds(lanes, ids) {
      assert RunIds(lanes) == ids;
    }
  }

  lemma IdIff(lane: Json)
    ensures forall id :: TextAt(lane, ["run_id"], id) && IsRunId(id) <==> NamesItsRun(lane) && RunIdOf(lane) == id
  {
    OneKey(lane, "run_id");
    forall id
      ensures TextAt(lane, ["run_id"], id) && IsRunId(id) <==> NamesItsRun(lane) && RunIdOf(lane) == id
    {
      ValidRunIdIff(id);
    }
  }

  lemma OneKey(j: Json, key: string)
    ensures Lookup(j, [key]) == j.Get(key)
  {
  }

  lemma MemberLookup(document: Json, outer: string, rest: seq<string>)
    ensures Lookup(document, [outer] + rest) ==
            (var member := document.Get(outer); if member.Some? then Lookup(member.value, rest) else None)
  {
    LookupConcat(document, [outer], rest);
    OneKey(document, outer);
  }

  // The lane was stopped without error: it never started, or its own report was cleaned up in a
  // terminal status.
  ghost predicate TornDown(lane: Json) {
    && TextAt(lane, ["status"], "pass")
    && AbsentOrNull(lane, "stop_error")
    && (|| ((TextAt(lane, ["verification"], "not-started") || TextAt(lane, ["verification"], "swept-stale-launch"))
            && AbsentOrNull(lane, "report_status"))
        || (TextAt(lane, ["verification"], "verified-cleanup")
            && exists status :: status in TERMINAL_TEXTS && TextAt(lane, ["report_status"], status)))
  }

  lemma TeardownVerifiedIff(lane: Json)
    ensures TeardownVerified(lane) <==> TornDown(lane)
  {
    OneKey(lane, "status");
    OneKey(lane, "stop_error");
    OneKey(lane, "verification");
    OneKey(lane, "report_status");
    if lane.GetStr("report_status").Some? {
      StatusClasses(lane.GetStr("report_status").value);
    }
  }

  ghost predicate PayloadProven(document: Json) {
    AbsentOrNull(document, "payload") || TrueAt(document, ["payload", "cleanup", "complete"])
  }

  lemma PayloadCleanIff(document: Json)
    ensures PayloadClean(document) <==> PayloadProven(document)
  {
    OneKey(document, "payload");
    MemberLookup(document, "payload", ["cleanup", "complete"]);
    assert ["payload"] + ["cleanup", "complete"] == ["payload", "cleanup", "complete"];
  }

  // As many lanes as requested, at least one, each under its own valid id.
  ghost predicate OwnsLanes(document: Json, requested: seq<string>, field: string, lanes: seq<Json>, ids: seq<string>) {
    && Lookup(document, [field]) == Some(Array(lanes))
    && Lookup(document, requested) == Some(Num(Integer(|lanes|)))
    && 1 <= |lanes| < U64_LIMIT
    && HasIds(lanes, ids) && Distinct(ids)
  }

  lemma SessionLanesIff(document: Json, kind: ReportKind, requested: seq<string>, field: string, ids: seq<string>)
    requires
      || (kind == EnvironmentBatch && requested == ["launch", "count"] && field == "runs")
      || (kind == FlowFanout && requested == ["workflow", "repeat"] && field == "lanes")
    ensures SessionLaneRunIds(document, kind) == Some(ids) <==>
            exists lanes :: OwnsLanes(document, requested, field, lanes, ids)
  {
    var lanes := LookupArray(document, [field]);
    if lanes.Some? {
      LaneRunIdsIff(lanes.value, ids);
      assert OwnsLanes(document, requested, field, lanes.value, ids) <==>
        SessionLaneRunIds(document, kind) == Some(ids);
    }
  }

  // No other kind owns lanes; each of the others asks for one.
  lemma OtherKindsOwnNoLanes(document: Json, kind: ReportKind)
    ensures kind != EnvironmentBatch && kind != FlowFanout ==>
      SessionLaneRunIds(document, kind) == None && RequestedLanes(document, kind) == Some(1)
  {
  }

  ghost predicate BatchProofOf(document: Json, runs: seq<Json>, ids: seq<string>, torn: seq<Json>, tornIds: seq<string>) {
    && OwnsLanes(document, ["launch", "count"], "runs", runs, ids)
    && Lookup(document, ["teardown", "lanes"]) == Some(Array(torn))
    && HasIds(torn, tornIds) && multiset(tornIds) == multiset(ids)
    && (forall i :: 0 <= i < |torn| ==> TornDown(torn[i]))
    && TextAt(document, ["teardown", "status"], "complete")
    && PayloadProven(document)
  }

  ghost predicate BatchProof(document: Json) {
    exists runs, ids, torn, tornIds :: BatchProofOf(document, runs, ids, torn, tornIds)
  }

  // A batch report is complete exactly when its teardown is a permutation of its owned lanes,
  // as many as were launched, all torn down.
  lemma BatchCompleteIffProof(document: Json)
    ensures BatchCleanup(document) == Complete <==> BatchProof(document)
  {
    if BatchCleanup(document) == Complete {
      var runs, ids, torn, tornIds := BatchWitness(document);
    }
    if BatchProof(document) {
      var runs, ids, torn, tornIds :| BatchProofOf(document, runs, ids, torn, tornIds);
      ProvenBatchIsComplete(document, runs, ids, torn, tornIds);
    }
  }

  lemma TeardownLookups(document: Json)
    ensures
      var teardown := document.Get("teardown");
      && Lookup(document, ["teardown", "lanes"]) == (if teardown.Some? then teardown.value.Get("lanes") else None)
      && Lookup(document, ["teardown", "status"]) == (if teardown.Some? then teardown.value.Get("status") else None)
  {
    MemberLookup(document, "teardown", ["lanes"]);
    MemberLookup(document, "teardown", ["status"]);
    assert ["teardown"] + ["lanes"] == ["teardown", "lanes"] && ["teardown"] + ["status"] == ["teardown", "status"];
    if document.Get("teardown").Some? {
      OneKey(document.Get("teardown").value, "lanes");
      OneKey(document.Get("teardown").value, "status");
    }
  }

  lemma BatchWitness(document: Json) returns (runs: seq<Json>, ids: seq<string>, torn: seq<Json>, tornIds: seq<string>)
    requires BatchCleanup(document) == Complete
    ensures BatchProofOf(document, runs, ids, torn, tornIds)
  {
    TeardownLookups(document);
    PayloadCleanIff(document);
    ids := SessionLaneRunIds(document, EnvironmentBatch).value;
    SessionLanesIff(document, EnvironmentBatch, ["launch", "count"], "runs", ids);
    runs :| OwnsLanes(document, ["launch", "count"], "runs", runs, ids);
    var teardown := document.Get("teardown").value;
    OneKey(teardown, "lanes");
    torn := LookupArray(teardown, ["lanes"]).value;
    tornIds := LaneRunIds(torn).value;
    LaneRunIdsIff(torn, tornIds);
    SameIdsIffPermutation(ids, tornIds);
    forall i | 0 <= i < |torn|
      ensures TornDown(torn[i])
    {
      TeardownVerifiedIff(torn[i]);
    }
  }

  lemma ProvenBatchIsComplete(document: Json, runs: seq<Json>, ids: seq<string>, torn: seq<Json>, tornIds: seq<string>)
    requires BatchProofOf(document, runs, ids, torn, tornIds)
    ensures BatchCleanup(document) == Complete
  {
    TeardownLookups(document);
    PayloadCleanIff(document);
    SessionLanesIff(document, EnvironmentBatch, ["launch", "count"], "runs", ids);
    SameIdsIffPermutation(ids, tornIds);
    LaneRunIdsIff(torn, tornIds);
    OneKey(document.Get("teardown").value, "lanes");
    forall i | 0 <= i < |torn|
      ensures TeardownVerified(torn[i])
    {
      TeardownVerifiedIff(torn[i]);
    }
  }

  lemma SameIdsIffPermutation(a: seq<string>, b: seq<string>)
    requires Distinct(a)
    ensures Distinct(b) && (set id | id in a) == (set id | id in b) <==> multiset(a) == multiset(b)
  {
    if Distinct(b) && (set id | id in a) == (set id | id in b) {
      var inA, inB := set id | id in a, set id | id in b;
      forall id ensures id in a <==> id in b {
        assert id in inA <==> id in a;
        assert id in inB <==> id in b;
      }
      DistinctSameSetIsPermutation(a, b);
    }
    if multiset(a) == multiset(b) {
      forall id ensures id in a <==> id in b {
        assert id in multiset(a) <==> id in multiset(b);
      }
      forall i, j | 0 <= i < j < |b|
        ensures b[i] != b[j]
      {
        if b[i] == b[j] {
          assert b == b[..i] + [b[i]] + b[i + 1..j] + [b[j]] + b[j + 1..];
          DistinctOccursOnce(a, b[i]);
        }
      }
    }
  }

  // So each owned lane has exactly one teardown entry, and that lane is torn down.
  lemma EachOwnedLaneTornDownOnce(document: Json, runs: seq<Json>, i: nat, id: string)
    returns (torn: seq<Json>, k: nat)
    requires BatchCleanup(document) == Complete
    requires Lookup(document, ["runs"]) == Some(Array(runs)) && i < |runs| && TextAt(runs[i], ["run_id"], id)
    ensures Lookup(document, ["teardown", "lanes"]) == Some(Array(torn))
    ensures k < |torn| && TextAt(torn[k], ["run_id"], id) && TornDown(torn[k])
    ensures forall m :: 0 <= m < |torn| && TextAt(torn[m], ["run_id"], id) ==> m == k
  {
    var owned, ids, lanes, tornIds := BatchWitness(document);
    torn := lanes;
    SameIdsIffPermutation(ids, tornIds);
    assert ids[i] in multiset(tornIds);
    k :| 0 <= k < |tornIds| && tornIds[k] == id;
  }

  ghost predicate PreparationProven(document: Json) {
    Lookup(document, ["preparation"]) == None
    || (TrueAt(document, ["preparation", "build", "cleanup", "complete"])
        && TrueAt(document, ["preparation", "iso", "cleanup", "complete"]))
  }

  lemma PreparationCleanIff(document: Json)
    ensures PreparationClean(document) <==> PreparationProven(document)
  {
    OneKey(document, "preparation");
    MemberLookup(document, "preparation", ["build", "cleanup", "complete"]);
    MemberLookup(document, "preparation", ["iso", "cleanup", "complete"]);
    assert ["preparation"] + ["build", "cleanup", "complete"] == ["preparation", "build", "cleanup", "complete"];
    assert ["preparation"] + ["iso", "cleanup", "complete"] == ["preparation", "iso", "cleanup", "complete"];
    assert "build" in ["build", "iso"] && "iso" in ["build", "iso"];
  }

  ghost predicate FanoutProofOf(document: Json, lanes: seq<Json>, ids: seq<string>) {
    && OwnsLanes(document, ["workflow", "repeat"], "lanes", lanes, ids)
    && (forall i :: 0 <= i < |lanes| ==> TrueAt(lanes[i], ["cleanup", "complete"]))
    && PreparationProven(document)
    && PayloadProven(document)
  }

  ghost predicate FanoutProof(document: Json) {
    exists lanes, ids :: FanoutProofOf(document, lanes, ids)
  }

  // A fan-out report is complete exactly when it has one lane per requested repetition,
  // under distinct ids, and every lane proves its cleanup.
  lemma FanoutCompleteIffProof(document: Json)
    ensures FanoutCleanup(document) == Complete <==> FanoutProof(document)
  {
    PreparationCleanIff(document);
    PayloadCleanIff(document);
    if FanoutCleanup(document) == Complete {
      var ids := SessionLaneRunIds(document, FlowFanout).value;
      SessionLanesIff(document, FlowFanout, ["workflow", "repeat"], "lanes", ids);
      var lanes :| OwnsLanes(document, ["workflow", "repeat"], "lanes", lanes, ids);
      assert FanoutProofOf(document, lanes, ids);
    }
    if FanoutProof(document) {
      var lanes, ids :| FanoutProofOf(document, lanes, ids);
      SessionLanesIff(document, FlowFanout, ["workflow", "repeat"], "lanes", ids);
    }
  }

  ghost predicate ChildProof(document: Json) {
    && TextAt(document, ["teardown", "status"], "complete")
    && TrueAt(document, ["teardown", "qemu_exit_verified"])
    && TrueAt(document, ["teardown", "tree_exit_verified"])
    && (TextAt(document, ["kind"], "image-import") ==> TrueAt(document, ["teardown", "staging_removed"]))
  }

  // A single-lane report in a terminal status is complete exactly when its teardown proves the
  // exit of the process tree and, for an import, the removal of the staging area.
  lemma ChildCompleteIffProof(document: Json, status: ReportStatus)
    ensures ChildCleanup(document, status) == Complete <==> status.IsTerminal() && ChildProof(document)
  {
    OneKey(document, "kind");
    TeardownMember(document, "status");
    TeardownMember(document, "qemu_exit_verified");
    TeardownMember(document, "tree_exit_verified");
    TeardownMember(document, "staging_removed");
  }

  lemma TeardownMember(document: Json, key: string)
    ensures Lookup(document, ["teardown", key]) ==
            (var teardown := document.Get("teardown"); if teardown.Some? then teardown.value.Get(key) else None)
  {
    MemberLookup(document, "teardown", [key]);
    assert ["teardown"] + [key] == ["teardown", key];
    if document.Get("teardown").Some? {
      OneKey(document.Get("teardown").value, key);
    }
  }

  // The proof that a report of this kind carries.
  ghost predicate ProofOf(document: Json, kind: string) {
    if kind in {"environment", "flow", "image-import"} then ChildProof(document)
    else if kind == "environment-batch" then BatchProof(document)
    else kind == "flow-fanout" && FanoutProof(document)
  }

  // Complete, in a terminal status and with the proof of its kind; pending, while its status is
  // active or unknown, or its kind unknown and the status not one that says incomplete;
  // otherwise incomplete.
  lemma CleanupStates(document: Json, kind: string, status: string)
    requires TextAt(document, ["kind"], kind)
    ensures
      var state := CleanupOf(document, ParseKind(kind), ParseStatus(status));
      && (state == Complete <==> status in TERMINAL_TEXTS && ProofOf(document, kind))
      && (state == Pending <==>
            || (status !in TERMINAL_TEXTS && status !in INCOMPLETE_TEXTS)
            || (kind !in KIND_TEXTS && status !in INCOMPLETE_TEXTS))
  {
    StatusClasses(status);
    ChildCompleteIffProof(document, ParseStatus(status));
    BatchCompleteIffProof(document);
    FanoutCompleteIffProof(document);
    NeverPending(document);
  }

  lemma NeverPending(document: Json)
    ensures BatchCleanup(document) != Pending && FanoutCleanup(document) != Pending
  {
  }

  // Nothing but a known kind in a terminal status is ever complete.
  lemma CompleteIsTerminal(document: Json, kind: ReportKind, status: ReportStatus)
    requires CleanupOf(document, kind, status) == Complete
    ensures !kind.UnknownKind? && status.IsTerminal()
    ensures kind == EnvironmentBatch ==> BatchProof(document)
    ensures kind == FlowFanout ==> FanoutProof(document)
    ensures kind in {Environment, Flow, ImageImport} ==> ChildProof(document)
  {
    if kind in {Environment, Flow, ImageImport} {
      ChildCompleteIffProof(document, status);
    }
    if kind == EnvironmentBatch {
      BatchCompleteIffProof(document);
    }
    if kind == FlowFanout {
      FanoutCompleteIffProof(document);
    }
  }

  // ----- Reports -----

  // The bytes of a file, as far as the JSON parser can read them.
  datatype Content = Malformed(bytes: string) | Document(document: Json)

  datatype Report = Report(runId: string, kind: ReportKind, status: ReportStatus, cleanup: CleanupState)

  function ParseReport(document: Json): Option<Report> {
    var runId, kindText, statusText := document.GetStr("run_id"), document.GetStr("kind"), document.GetStr("status");
    if runId.None? || kindText.None? || statusText.None? then None
    else
      var kind, status := ParseKind(kindText.value), ParseStatus(statusText.value);
      Some(Report(runId.value, kind, status, CleanupOf(document, kind, status)))
  }

  datatype Concern = HistoricalFailure | UnresolvedCleanup

  function ConcernOf(report: Report): Option<Concern> {
    if report.cleanup == Incomplete then Some(UnresolvedCleanup)
    else if report.cleanup == Pending && !report.status.IsActive() then Some(UnresolvedCleanup)
    else if report.status in {Failed, Abandoned} then Some(HistoricalFailure)
    else None
  }

  predicate NeedsAttention(report: Report) {
    ConcernOf(report) == Some(UnresolvedCleanup)
  }

  // A document is a report exactly when it names its run, kind and status; its cleanup is
  // complete exactly when the status is terminal and the document carries the proof of the kind.
  lemma ReportIff(document: Json, runId: string, kind: string, status: string)
    ensures
      && TextAt(document, ["run_id"], runId) && TextAt(document, ["kind"], kind) && TextAt(document, ["status"], status)
      <==>
      && ParseReport(document).Some?
      && var report := ParseReport(document).value;
         report.runId == runId && report.kind == ParseKind(kind) && report.status == ParseStatus(status)
    ensures
      TextAt(document, ["run_id"], runId) && TextAt(document, ["kind"], kind) && TextAt(document, ["status"], status) ==>
      (ParseReport(document).value.cleanup == Complete <==> status in TERMINAL_TEXTS && ProofOf(document, kind))
  {
    OneKey(document, "run_id");
    OneKey(document, "kind");
    OneKey(document, "status");
    KindsReadBack(kind, ParseKind(kind));
    StatusesReadBack(status, ParseStatus(status));
    if ParseReport(document).Some? {
      KindsReadBack(document.GetStr("kind").value, ParseKind(kind));
      StatusesReadBack(document.GetStr("status").value, ParseStatus(status));
    }
    if TextAt(document, ["kind"], kind) {
      CleanupStates(document, kind, status);
    }
  }

  // A report concerns the user while its cleanup is incomplete, or pending with nothing running;
  // a failed or abandoned run whose cleanup is settled is history.
  lemma ConcernIff(report: Report)
    ensures NeedsAttention(report) <==>
      || report.cleanup == Incomplete
      || (report.cleanup == Pending
          && report.status !in {Preparing, Starting, Running, Stopping, Recovering, Cancelling})
    ensures ConcernOf(report) == Some(HistoricalFailure) <==>
      report.status in {Failed, Abandoned} && report.cleanup == Complete
    ensures ConcernOf(report).None? <==>
      || (report.cleanup == Pending
          && report.status in {Preparing, Starting, Running, Stopping, Recovering, Cancelling})
      || (report.cleanup == Complete && report.status !in {Failed, Abandoned})
  {
  }
}
