/** Upgrading the teardown record of reports written before cleanup proofs were typed. */
module CleanupRepair {
  import opened Common
  import opened JsonValues
  import opened Paths
  import opened RunReports

  // What the file system answers about other paths.
  datatype Disk = Disk(present: Path -> bool, isFile: Path -> bool)

  datatype Format = Lifecycle | OrphanReconciliation

  const BACKUP_NAME := "report.legacy-cleanup.json"

  predicate IsGeneratedName(name: string) {
    || name == "overlay.qcow2"
    || name == "usb-stick.raw"
    || (StartsWith(name, "overlay-snap-") && EndsWith(name, ".qcow2"))
  }

  // A removed artifact that the launcher generates in the run directory, and that is gone.
  predicate RemovedFromRunDirectory(value: Json, runDir: Path, disk: Disk) {
    value.Str? &&
    var removed := ParsePath(value.text);
    var name := removed.FileName();
    && name.Some?
    && IsGeneratedName(name.value)
    && removed == runDir.Child(name.value)
    && !disk.present(removed)
  }

  predicate StatusIs(document: Json, wanted: ReportStatus -> bool) {
    var status := document.GetStr("status");
    status.Some? && wanted(ParseStatus(status.value))
  }

  // Everything both formats require of the report around its teardown.
  predicate LegacyCandidate(path: Path, document: Json, disk: Disk) {
    && path.FileName() == Some("report.json")
    && var runDir := path.Parent().value;
    && document.GetStr("run_id").Some?
    && document.GetStr("run_id") == runDir.FileName()
    && document.GetStr("kind") in {Some("environment"), Some("flow")}
    && StatusIs(document, (s: ReportStatus) => s.IsTerminal())
    && document.GetStr("name").Some? && StartsWith(document.GetStr("name").value, "qol-emu-")
    && document.GetU64("finished_at_unix_ms").Some?
    && document.Get("teardown").Some? && document.Get("teardown").value.Object?
    && var removed := LookupArray(document.Get("teardown").value, ["removed"]);
    && removed.Some?
    && forall value :: value in removed.value ==> RemovedFromRunDirectory(value, runDir, disk)
  }

  predicate IsLifecycleTeardown(teardown: Json)
    requires teardown.Object?
  {
    && "status" !in teardown.fields
    && teardown.fields.Keys <= {"exit", "removed"}
    && teardown.GetStr("exit").Some? && StartsWith(teardown.GetStr("exit").value, "exit status:")
  }

  predicate IsReconciledTeardown(runDir: Path, document: Json, teardown: Json, disk: Disk)
    requires teardown.Object?
  {
    && teardown.fields.Keys == {"machine_name", "phase", "qemu_exit_verified", "qemu_was_alive", "removed", "status"}
    && teardown.GetStr("status") == Some("complete")
    && teardown.GetStr("phase") == Some("complete")
    && teardown.HasTrue("qemu_exit_verified")
    && ReconciliationRepeats(runDir, document, disk)
  }

  // The reconciliation of a run that was still active, with its evidence kept.
  predicate ReconciliationRepeats(runDir: Path, document: Json, disk: Disk) {
    && document.Get("reconciliation").Some?
    && var reconciliation := document.Get("reconciliation").value;
    && reconciliation.Get("cleanup") == document.Get("teardown")
    && reconciliation.GetStr("previous_status").Some?
    && ParseStatus(reconciliation.GetStr("previous_status").value).IsActive()
    && NamesFile(reconciliation, "evidence_report", runDir.Child("report.running.json"), disk)
    && NamesFile(reconciliation, "stale_marker", runDir.Child("stale.json"), disk)
  }

  predicate NamesFile(document: Json, field: string, expected: Path, disk: Disk) {
    && document.GetStr(field).Some?
    && ParsePath(document.GetStr(field).value) == expected
    && disk.isFile(expected)
  }

  function LegacyFormat(path: Path, document: Json, disk: Disk): Option<Format> {
    if !LegacyCandidate(path, document, disk) then None
    else
      var teardown := document.Get("teardown").value;
      if IsLifecycleTeardown(teardown) then Some(Lifecycle)
      else if IsReconciledTeardown(path.Parent().value, document, teardown, disk) then Some(OrphanReconciliation)
      else None
  }

  function SourceName(format: Format): string {
    if format == Lifecycle then "qol-emu-legacy-lifecycle-v1" else "qol-emu-legacy-orphan-reconciliation-v1"
  }

  function Upgraded(document: Json, format: Format, now: nat, backup: string): Json
    requires document.Object? && "teardown" in document.fields && document.fields["teardown"].Object?
  {
    var teardown := document.fields["teardown"].fields
      ["status" := Str("complete")]["qemu_exit_verified" := Bool(true)]["tree_exit_verified" := Bool(true)];
    var record := Object(map[
      "source" := Str(SourceName(format)),
      "upgraded_at_unix_ms" := Num(Integer(now)),
      "evidence_report" := Str(backup)]);
    Object(document.fields["teardown" := Object(teardown)]["cleanup_proof_upgrade" := record])
  }

  // ----- What the upgrade achieves -----

  // A terminal single-lane report with a teardown object.
  predicate TerminalChild(document: Json) {
    && document.Object?
    && "teardown" in document.fields && document.fields["teardown"].Object?
    && document.GetStr("run_id").Some?
    && document.GetStr("kind") in {Some("environment"), Some("flow")}
    && document.GetStr("status").Some? && ParseStatus(document.GetStr("status").value).IsTerminal()
  }

  lemma AcceptedIsUnprovenChild(path: Path, document: Json, disk: Disk)
    requires LegacyFormat(path, document, disk).Some?
    ensures TerminalChild(document) && "tree_exit_verified" !in document.fields["teardown"].fields
  {
  }

  lemma ChildReport(document: Json)
    requires TerminalChild(document)
    ensures
      var status := ParseStatus(document.GetStr("status").value);
      && ParseReport(document).Some?
      && ParseReport(document).value.status == status
      && ParseReport(document).value.cleanup == ChildCleanup(document, status)
  {
  }

  lemma UpgradedIsTerminalChild(document: Json, format: Format, now: nat, backup: string)
    requires TerminalChild(document)
    ensures
      var upgraded := Upgraded(document, format, now, backup);
      TerminalChild(upgraded) && upgraded.GetStr("kind") == document.GetStr("kind")
  {
    var upgraded := Upgraded(document, format, now, backup);
    assert upgraded.GetStr("run_id") == document.GetStr("run_id");
    assert upgraded.GetStr("status") == document.GetStr("status");
  }

  lemma UpgradedTeardownIsComplete(document: Json, format: Format, now: nat, backup: string, status: ReportStatus)
    requires TerminalChild(document) && status.IsTerminal()
    requires Upgraded(document, format, now, backup).GetStr("kind") != Some("image-import")
    ensures ChildCleanup(Upgraded(document, format, now, backup), status) == Complete
  {
    UpgradedTeardown(document, format, now, backup);
  }

  lemma UpgradedTeardown(document: Json, format: Format, now: nat, backup: string)
    requires document.Object? && "teardown" in document.fields && document.fields["teardown"].Object?
    ensures
      var teardown := Upgraded(document, format, now, backup).Get("teardown");
      && teardown.Some? && teardown.value.Object?
      && teardown.value.GetStr("status") == Some("complete")
      && teardown.value.HasTrue("qemu_exit_verified") && teardown.value.HasTrue("tree_exit_verified")
  {
    var upgraded := Upgraded(document, format, now, backup);
    assert upgraded.fields["teardown"].fields["status"] == Str("complete");
    assert upgraded.fields["teardown"].fields["qemu_exit_verified"] == Bool(true);
  }

  // A report that lacks typed cleanup proof needs attention before the upgrade; after it the
  // report is completely cleaned up.
  lemma UpgradeProvesCleanup(document: Json, format: Format, now: nat, backup: string)
    requires TerminalChild(document) && "tree_exit_verified" !in document.fields["teardown"].fields
    ensures ParseReport(document).Some? && ParseReport(document).value.cleanup == Incomplete
    ensures NeedsAttention(ParseReport(document).value)
    ensures
      var report := ParseReport(Upgraded(document, format, now, backup));
      report.Some? && report.value.cleanup == Complete && !NeedsAttention(report.value)
  {
    UnprovenIsIncomplete(document);
    var upgraded := Upgraded(document, format, now, backup);
    UpgradedIsTerminalChild(document, format, now, backup);
    ChildReport(upgraded);
    UpgradedTeardownIsComplete(document, format, now, backup, ParseStatus(upgraded.GetStr("status").value));
  }

  lemma UnprovenIsIncomplete(document: Json)
    requires TerminalChild(document) && "tree_exit_verified" !in document.fields["teardown"].fields
    ensures ParseReport(document).Some? && ParseReport(document).value.cleanup == Incomplete
  {
    ChildReport(document);
  }

  lemma AcceptedUpgradeIsComplete(path: Path, document: Json, disk: Disk, format: Format, now: nat, backup: string)
    requires LegacyFormat(path, document, disk).Some?
    ensures document.Object? && "teardown" in document.fields && document.fields["teardown"].Object?
    ensures
      var report := ParseReport(Upgraded(document, format, now, backup));
      report.Some? && report.value.cleanup == Complete
  {
    AcceptedIsUnprovenChild(path, document, disk);
    UpgradeProvesCleanup(document, format, now, backup);
  }

  // No path, disk or moment makes an upgraded report acceptable again.
  lemma UpgradeHappensOnce(document: Json, format: Format, now: nat, backup: string, path: Path, disk: Disk)
    requires document.Object? && "teardown" in document.fields && document.fields["teardown"].Object?
    ensures LegacyFormat(path, Upgraded(document, format, now, backup), disk).None?
  {
    var teardown := Upgraded(document, format, now, backup).fields["teardown"];
    assert "status" in teardown.fields;
    assert "tree_exit_verified" in teardown.fields;
    assert "tree_exit_verified" !in
      {"machine_name", "phase", "qemu_exit_verified", "qemu_was_alive", "removed", "status"};
  }

  // The upgrade touches three teardown members and its own record, nothing else.
  lemma UpgradeKeepsTheRest(document: Json, format: Format, now: nat, backup: string, path: seq<string>)
    requires document.Object? && "teardown" in document.fields && document.fields["teardown"].Object?
    requires path != [] && path[0] != "cleanup_proof_upgrade"
    requires path[0] == "teardown" ==>
      |path| > 1 && path[1] !in {"status", "qemu_exit_verified", "tree_exit_verified"}
    ensures Lookup(Upgraded(document, format, now, backup), path) == Lookup(document, path)
  {
    var upgraded := Upgraded(document, format, now, backup);
    if path[0] == "teardown" {
      assert Lookup(upgraded, path) == Lookup(upgraded.fields["teardown"], path[1..]);
      assert Lookup(document, path) == Lookup(document.fields["teardown"], path[1..]);
    }
  }

  // ----- What is accepted, read off the document, its path and the disk -----

  ghost predicate GeneratedName(name: string) {
    name == "overlay.qcow2" || name == "usb-stick.raw" || exists middle :: name == "overlay-snap-" + middle + ".qcow2"
  }

  lemma GeneratedNameIff(name: string)
    ensures IsGeneratedName(name) <==> GeneratedName(name)
  {
    var prefix, suffix := "overlay-snap-", ".qcow2";
    if StartsWith(name, prefix) && EndsWith(name, suffix) {
      NoOverlap(name, prefix, suffix);
      var middle := name[|prefix|..|name| - |suffix|];
      assert name == prefix + middle + suffix;
    }
    if exists middle :: name == prefix + middle + suffix {
      var middle :| name == prefix + middle + suffix;
      assert name[..|prefix|] == prefix && name[|name| - |suffix|..] == suffix;
    }
  }

  lemma NoOverlap(name: string, prefix: string, suffix: string)
    requires prefix <= name && EndsWith(name, suffix) && suffix != "" && suffix[0] !in prefix
    ensures |prefix| + |suffix| <= |name|
  {
    var start := |name| - |suffix|;
    assert name[start] == suffix[0];
    assert forall i :: 0 <= i < |prefix| ==> name[i] == prefix[i] && prefix[i] in prefix;
  }

  // The entry names a generated artifact of the run directory that is no longer there.
  ghost predicate RemovedAndGone(value: Json, runDir: Path, disk: Disk, name: string) {
    && GeneratedName(name)
    && value.Str? && ParsePath(value.text) == runDir.Child(name)
    && !disk.present(runDir.Child(name))
  }

  lemma RemovedIff(value: Json, runDir: Path, disk: Disk)
    ensures RemovedFromRunDirectory(value, runDir, disk) <==> exists name :: RemovedAndGone(value, runDir, disk, name)
  {
    if RemovedFromRunDirectory(value, runDir, disk) {
      var name := ParsePath(value.text).FileName().value;
      GeneratedNameIff(name);
      assert RemovedAndGone(value, runDir, disk, name);
    }
    if exists name :: RemovedAndGone(value, runDir, disk, name) {
      var name :| RemovedAndGone(value, runDir, disk, name);
      GeneratedNameIff(name);
      GeneratedNamesAreNoDots(name);
    }
  }

  lemma GeneratedNamesAreNoDots(name: string)
    requires GeneratedName(name)
    ensures |name| > 2
  {
    if exists middle :: name == "overlay-snap-" + middle + ".qcow2" {
      var middle :| name == "overlay-snap-" + middle + ".qcow2";
      assert |name| == |"overlay-snap-"| + |middle| + |".qcow2"|;
    }
  }

  // The report file of the directory that is named after the run.
  ghost predicate ReportOfRun(path: Path, runDir: Path, document: Json) {
    && path == runDir.Child("report.json")
    && runDir.parts != [] && runDir.parts[|runDir.parts| - 1] !in {".", ".."}
    && TextAt(document, ["run_id"], runDir.parts[|runDir.parts| - 1])
  }

  ghost predicate StartsAt(document: Json, path: seq<string>, prefix: string) {
    exists rest :: TextAt(document, path, prefix + rest)
  }

  // A finished emulator run of one lane, all of whose removed artifacts are gone.
  ghost predicate FinishedLane(runDir: Path, document: Json, disk: Disk) {
    && (TextAt(document, ["kind"], "environment") || TextAt(document, ["kind"], "flow"))
    && (exists status :: status in TERMINAL_TEXTS && TextAt(document, ["status"], status))
    && StartsAt(document, ["name"], "qol-emu-")
    && (exists time: nat :: time < U64_LIMIT && Lookup(document, ["finished_at_unix_ms"]) == Some(Num(Integer(time))))
    && (exists removed :: Lookup(document, ["teardown", "removed"]) == Some(Array(removed))
          && forall value :: value in removed ==> exists name :: RemovedAndGone(value, runDir, disk, name))
  }

  // The teardown holds nothing but the exit status and the removed artifacts.
  ghost predicate LifecycleShape(document: Json) {
    && (forall key :: Lookup(document, ["teardown", key]).Some? ==> key in {"exit", "removed"})
    && StartsAt(document, ["teardown", "exit"], "exit status:")
  }

  ghost predicate FileAt(document: Json, path: seq<string>, expected: Path, disk: Disk) {
    disk.isFile(expected) && exists text :: TextAt(document, path, text) && ParsePath(text) == expected
  }

  // The fields of a reconciled teardown.
  ghost predicate ReconciledFields(document: Json) {
    && (forall key :: Lookup(document, ["teardown", key]).Some? <==>
          key in {"machine_name", "phase", "qemu_exit_verified", "qemu_was_alive", "removed", "status"})
    && TextAt(document, ["teardown", "status"], "complete")
    && TextAt(document, ["teardown", "phase"], "complete")
    && TrueAt(document, ["teardown", "qemu_exit_verified"])
  }

  // The teardown is complete and repeated by the reconciliation of a run that was still active,
  // whose running report and stale marker are kept.
  ghost predicate ReconciledShape(runDir: Path, document: Json, disk: Disk) {
    && ReconciledFields(document)
    && Lookup(document, ["reconciliation", "cleanup"]) == Lookup(document, ["teardown"])
    && (exists status :: status in ACTIVE_TEXTS && TextAt(document, ["reconciliation", "previous_status"], status))
    && FileAt(document, ["reconciliation", "evidence_report"], runDir.Child("report.running.json"), disk)
    && FileAt(document, ["reconciliation", "stale_marker"], runDir.Child("stale.json"), disk)
  }

  lemma StartsAtIff(j: Json, path: seq<string>, prefix: string)
    ensures StartsAt(j, path, prefix) <==>
            (var found := Lookup(j, path); found.Some? && found.value.Str? && StartsWith(found.value.text, prefix))
  {
    var found := Lookup(j, path);
    if found.Some? && found.value.Str? && StartsWith(found.value.text, prefix) {
      assert found.value.text == prefix + found.value.text[|prefix|..];
    }
  }

  lemma CandidateIff(path: Path, document: Json, disk: Disk)
    ensures LegacyCandidate(path, document, disk) <==>
            path.Parent().Some? && ReportOfRun(path, path.Parent().value, document)
            && FinishedLane(path.Parent().value, document, disk)
  {
    OneKey(document, "run_id");
    OneKey(document, "finished_at_unix_ms");
    OneKey(document, "name");
    StartsAtIff(document, ["name"], "qol-emu-");
    KindAndStatus(document);
    if path.Parent().Some? {
      RemovedListIff(document, path.Parent().value, disk);
      PathOfReport(path);
    }
  }

  lemma PathOfReport(path: Path)
    requires path.Parent().Some?
    ensures path.FileName() == Some("report.json") <==> path == path.Parent().value.Child("report.json")
  {
  }

  lemma KindAndStatus(document: Json)
    ensures document.GetStr("kind") in {Some("environment"), Some("flow")} <==>
            TextAt(document, ["kind"], "environment") || TextAt(document, ["kind"], "flow")
    ensures StatusIs(document, (s: ReportStatus) => s.IsTerminal()) <==>
            exists status :: status in TERMINAL_TEXTS && TextAt(document, ["status"], status)
  {
    OneKey(document, "kind");
    OneKey(document, "status");
    if document.GetStr("status").Some? {
      StatusClasses(document.GetStr("status").value);
    }
  }

  lemma RemovedListIff(document: Json, runDir: Path, disk: Disk)
    ensures
      (&& document.Get("teardown").Some? && document.Get("teardown").value.Object?
       && var removed := LookupArray(document.Get("teardown").value, ["removed"]);
       removed.Some? && forall value :: value in removed.value ==> RemovedFromRunDirectory(value, runDir, disk))
      <==>
      exists removed :: Lookup(document, ["teardown", "removed"]) == Some(Array(removed))
        && forall value :: value in removed ==> exists name :: RemovedAndGone(value, runDir, disk, name)
  {
    TeardownMember(document, "removed");
    if document.Get("teardown").Some? {
      OneKey(document.Get("teardown").value, "removed");
    }
    forall value
      ensures RemovedFromRunDirectory(value, runDir, disk) <==> exists name :: RemovedAndGone(value, runDir, disk, name)
    {
      RemovedIff(value, runDir, disk);
    }
  }

  lemma TeardownKeys(document: Json, teardown: Json, key: string)
    requires document.Get("teardown") == Some(teardown) && teardown.Object?
    ensures Lookup(document, ["teardown", key]).Some? <==> key in teardown.fields
    ensures Lookup(document, ["teardown", key]) == teardown.Get(key)
  {
    TeardownMember(document, key);
  }

  lemma LifecycleIff(document: Json, teardown: Json)
    requires document.Get("teardown") == Some(teardown) && teardown.Object?
    ensures IsLifecycleTeardown(teardown) <==> LifecycleShape(document)
  {
    forall key
      ensures Lookup(document, ["teardown", key]).Some? <==> key in teardown.fields
    {
      TeardownKeys(document, teardown, key);
    }
    TeardownKeys(document, teardown, "exit");
    StartsAtIff(document, ["teardown", "exit"], "exit status:");
  }

  lemma FileAtIff(document: Json, reconciliation: Json, field: string, expected: Path, disk: Disk)
    requires document.Get("reconciliation") == Some(reconciliation)
    ensures NamesFile(reconciliation, field, expected, disk) <==> FileAt(document, ["reconciliation", field], expected, disk)
  {
    ReconciliationMember(document, field);
  }

  lemma ReconciliationMember(document: Json, key: string)
    ensures Lookup(document, ["reconciliation", key]) ==
            (var member := document.Get("reconciliation"); if member.Some? then member.value.Get(key) else None)
  {
    MemberLookup(document, "reconciliation", [key]);
    assert ["reconciliation"] + [key] == ["reconciliation", key];
    if document.Get("reconciliation").Some? {
      OneKey(document.Get("reconciliation").value, key);
    }
  }

  lemma PreviousStatusIff(document: Json, reconciliation: Json)
    requires document.Get("reconciliation") == Some(reconciliation)
    ensures
      (reconciliation.GetStr("previous_status").Some?
       && ParseStatus(reconciliation.GetStr("previous_status").value).IsActive())
      <==> exists status :: status in ACTIVE_TEXTS && TextAt(document, ["reconciliation", "previous_status"], status)
  {
    ReconciliationMember(document, "previous_status");
    if reconciliation.GetStr("previous_status").Some? {
      StatusClasses(reconciliation.GetStr("previous_status").value);
    }
  }

  lemma KeysIff(document: Json, teardown: Json, keys: set<string>)
    requires document.Get("teardown") == Some(teardown) && teardown.Object?
    ensures teardown.fields.Keys == keys <==> forall key :: Lookup(document, ["teardown", key]).Some? <==> key in keys
  {
    forall key
      ensures Lookup(document, ["teardown", key]).Some? <==> key in teardown.fields
    {
      TeardownKeys(document, teardown, key);
    }
    if forall key :: Lookup(document, ["teardown", key]).Some? <==> key in keys {
      assert forall key :: key in teardown.fields <==> key in keys;
    }
  }

  lemma ReconciledFieldsIff(document: Json, teardown: Json)
    requires document.Get("teardown") == Some(teardown) && teardown.Object?
    ensures ReconciledFields(document) <==>
      && teardown.fields.Keys == {"machine_name", "phase", "qemu_exit_verified", "qemu_was_alive", "removed", "status"}
      && teardown.GetStr("status") == Some("complete")
      && teardown.GetStr("phase") == Some("complete")
      && teardown.HasTrue("qemu_exit_verified")
  {
    KeysIff(document, teardown, {"machine_name", "phase", "qemu_exit_verified", "qemu_was_alive", "removed", "status"});
    TeardownKeys(document, teardown, "status");
    TeardownKeys(document, teardown, "phase");
    TeardownKeys(document, teardown, "qemu_exit_verified");
  }

  lemma ReconciledIff(runDir: Path, document: Json, teardown: Json, disk: Disk)
    requires document.Get("teardown") == Some(teardown) && teardown.Object?
    ensures IsReconciledTeardown(runDir, document, teardown, disk) <==> ReconciledShape(runDir, document, disk)
  {
    ReconciledFieldsIff(document, teardown);
    ReconciliationIff(runDir, document, disk);
  }

  lemma ReconciliationIff(runDir: Path, document: Json, disk: Disk)
    requires document.Get("teardown").Some?
    ensures ReconciliationRepeats(runDir, document, disk) <==>
      && Lookup(document, ["reconciliation", "cleanup"]) == Lookup(document, ["teardown"])
      && (exists status :: status in ACTIVE_TEXTS && TextAt(document, ["reconciliation", "previous_status"], status))
      && FileAt(document, ["reconciliation", "evidence_report"], runDir.Child("report.running.json"), disk)
      && FileAt(document, ["reconciliation", "stale_marker"], runDir.Child("stale.json"), disk)
  {
    OneKey(document, "teardown");
    ReconciliationMember(document, "cleanup");
    if document.Get("reconciliation").Some? {
      var reconciliation := document.Get("reconciliation").value;
      PreviousStatusIff(document, reconciliation);
      FileAtIff(document, reconciliation, "evidence_report", runDir.Child("report.running.json"), disk);
      FileAtIff(document, reconciliation, "stale_marker", runDir.Child("stale.json"), disk);
    }
  }

  lemma ShapesAreApart(runDir: Path, document: Json, disk: Disk)
    ensures !(LifecycleShape(document) && ReconciledShape(runDir, document, disk))
  {
    assert TextAt(document, ["teardown", "status"], "complete") ==> Lookup(document, ["teardown", "status"]).Some?;
  }

  // A report is accepted in a format exactly when it is the report of a finished lane in the
  // directory named after it, its removed artifacts are gone, and its teardown has that shape.
  lemma AcceptedIff(path: Path, document: Json, disk: Disk)
    ensures
      var candidate := path.Parent().Some? && ReportOfRun(path, path.Parent().value, document)
                       && FinishedLane(path.Parent().value, document, disk);
      && (LegacyFormat(path, document, disk) == Some(Lifecycle) <==> candidate && LifecycleShape(document))
      && (LegacyFormat(path, document, disk) == Some(OrphanReconciliation) <==>
            candidate && ReconciledShape(path.Parent().value, document, disk))
  {
    CandidateIff(path, document, disk);
    if LegacyCandidate(path, document, disk) {
      LifecycleIff(document, document.Get("teardown").value);
      ReconciledIff(path.Parent().value, document, document.Get("teardown").value, disk);
      ShapesAreApart(path.Parent().value, document, disk);
    }
  }

  // What the upgrade writes.
  lemma UpgradeWrites(document: Json, format: Format, now: nat, backup: string)
    requires document.Object? && "teardown" in document.fields && document.fields["teardown"].Object?
    ensures
      var upgraded := Upgraded(document, format, now, backup);
      && TextAt(upgraded, ["teardown", "status"], "complete")
      && TrueAt(upgraded, ["teardown", "qemu_exit_verified"]) && TrueAt(upgraded, ["teardown", "tree_exit_verified"])
      && Lookup(upgraded, ["cleanup_proof_upgrade"]) == Some(Object(map[
           "source" := Str(match format case Lifecycle => "qol-emu-legacy-lifecycle-v1"
                                        case OrphanReconciliation => "qol-emu-legacy-orphan-reconciliation-v1"),
           "upgraded_at_unix_ms" := Num(Integer(now)),
           "evidence_report" := Str(backup)]))
  {
    var upgraded := Upgraded(document, format, now, backup);
    OneKey(upgraded, "cleanup_proof_upgrade");
    TeardownMember(upgraded, "status");
    TeardownMember(upgraded, "qemu_exit_verified");
    TeardownMember(upgraded, "tree_exit_verified");
  }

  // ----- The repair of one report file -----

  datatype Outcome = NotApplicable | Repaired(backup: Path) | ParseFailed | UpgradeRejected

  class RunDirectory {
    var files: map<Path, Content>

    constructor (files: map<Path, Content>)
      ensures this.files == files
    {
      this.files := files;
    }

    // `underLock` is what other processes have left in the directory once the lock is held.
    method RepairLegacyCleanup(path: Path, disk: Disk, underLock: map<Path, Content>, now: nat, backupText: string)
      returns (outcome: Outcome)
      modifies this
      ensures outcome != UpgradeRejected
      ensures outcome.Repaired? <==>
        && Accepted(old(files), path, disk)
        && Accepted(underLock, path, disk)
      ensures outcome.Repaired? ==>
        && outcome.backup == path.Parent().value.Child(BACKUP_NAME)
        && files == RepairedFiles(underLock, path, disk, now, backupText)
      ensures outcome == ParseFailed <==>
        || (path in old(files) && old(files)[path].Malformed?)
        || (Accepted(old(files), path, disk) && path in underLock && underLock[path].Malformed?)
      ensures !outcome.Repaired? ==> files == if Accepted(old(files), path, disk) then underLock else old(files)
    {
      var initial := Inspect(path, disk);
      if initial.Some? {
        return initial.value;
      }
      files := underLock;
      var current := Inspect(path, disk);
      if current.Some? {
        return current.value;
      }
      outcome := Upgrade(path, disk, now, backupText);
    }

    // Some outcome when there is nothing to repair, None when the report is accepted.
    method Inspect(path: Path, disk: Disk) returns (outcome: Option<Outcome>)
      ensures outcome.None? <==> Accepted(files, path, disk)
      ensures outcome.Some? ==> outcome.value in {NotApplicable, ParseFailed}
      ensures outcome == Some(ParseFailed) <==> path in files && files[path].Malformed?
    {
      if path !in files {
        return Some(NotApplicable);
      }
      if files[path].Malformed? {
        return Some(ParseFailed);
      }
      if LegacyFormat(path, files[path].document, disk).None? {
        return Some(NotApplicable);
      }
      return None;
    }

    method Upgrade(path: Path, disk: Disk, now: nat, backupText: string) returns (outcome: Outcome)
      requires Accepted(files, path, disk)
      modifies this
      ensures outcome == Repaired(path.Parent().value.Child(BACKUP_NAME))
      ensures files == RepairedFiles(old(files), path, disk, now, backupText)
    {
      var content := files[path];
      var format := LegacyFormat(path, content.document, disk).value;
      var backup := path.Parent().value.Child(BACKUP_NAME);
      if backup !in files {
        files := files[backup := content];
      }
      AcceptedUpgradeIsComplete(path, content.document, disk, format, now, backupText);
      var upgraded := Upgraded(content.document, format, now, backupText);
      var report := ParseReport(upgraded);
      if report.None? {
        return ParseFailed;
      }
      if report.value.cleanup != Complete {
        return UpgradeRejected;
      }
      files := files[path := Document(upgraded)];
      outcome := Repaired(backup);
    }
  }

  predicate Accepted(files: map<Path, Content>, path: Path, disk: Disk) {
    path in files && files[path].Document? && LegacyFormat(path, files[path].document, disk).Some?
  }

  function RepairedFiles(files: map<Path, Content>, path: Path, disk: Disk, now: nat, backupText: string): map<Path, Content>
    requires Accepted(files, path, disk)
  {
    var document := files[path].document;
    WithReportReplaced(files, path, Upgraded(document, LegacyFormat(path, document, disk).value, now, backupText))
  }

  function WithReportReplaced(files: map<Path, Content>, path: Path, document: Json): map<Path, Content>
    requires path in files && path.Parent().Some?
  {
    var backup := path.Parent().value.Child(BACKUP_NAME);
    var kept := if backup in files then files else files[backup := files[path]];
    kept[path := Document(document)]
  }

  // Replacing the report leaves the other files alone; a newly written backup holds the original.
  lemma ReplacementEffect(files: map<Path, Content>, path: Path, document: Json)
    requires path in files && path.FileName() == Some("report.json")
    ensures path.Parent().Some?
    ensures
      var after := WithReportReplaced(files, path, document);
      var backup := path.Parent().value.Child("report.legacy-cleanup.json");
      && after[path] == Document(document)
      && backup in after && after[backup] == (if backup in files then files[backup] else files[path])
      && after.Keys == files.Keys + {backup}
      && (forall p :: p in files && p != path ==> after[p] == files[p])
  {
    assert path.Parent().value.Child(BACKUP_NAME).FileName() == Some(BACKUP_NAME);
  }

  // After a repair the report proves cleanup and is never repaired again.
  lemma RepairEffect(files: map<Path, Content>, path: Path, disk: Disk, now: nat, backupText: string, later: Disk)
    requires Accepted(files, path, disk)
    ensures
      var after := RepairedFiles(files, path, disk, now, backupText);
      && path in after && after[path].Document?
      && !Accepted(after, path, later)
      && ParseReport(after[path].document).Some? && ParseReport(after[path].document).value.cleanup == Complete
  {
    var document := files[path].document;
    var format := LegacyFormat(path, document, disk).value;
    AcceptedIsUnprovenChild(path, document, disk);
    ReplacementEffect(files, path, Upgraded(document, format, now, backupText));
    UpgradeProvesCleanup(document, format, now, backupText);
    UpgradeHappensOnce(document, format, now, backupText, path, later);
  }
}
