/** Children that run under the lease of a session: how they are named and what they may use. */
module ChildCoverage {
  import opened Common
  import opened JsonValues
  import opened LeaseLedger
  import opened LeaseCommits
  import opened LeaseProtocol
  import opened LeaseSafety
  import opened Paths
  import opened Resources
  import opened RunReports

  // ----- The child's entry in the parent report -----

  predicate NamesAChild(entry: Json) {
    entry.GetStr("run_id").Some? && entry.GetStr("report").Some? && ParsePath(entry.GetStr("report").value).absolute
  }

  predicate HasId(entry: Json, id: string) {
    entry.GetStr("run_id") == Some(id)
  }

  predicate HasPath(entry: Json, path: Path) {
    entry.GetStr("report").Some? && ParsePath(entry.GetStr("report").value) == path
  }

  function ById(id: string): Json -> bool {
    entry => HasId(entry, id)
  }

  function ByPath(path: Path): Json -> bool {
    entry => HasPath(entry, path)
  }

  function ByBoth(id: string, path: Path): Json -> bool {
    entry => HasId(entry, id) && HasPath(entry, path)
  }

  // One entry names the child, and no other entry shares its id or its path.
  ghost predicate ListsChildOnce(entries: seq<Json>, id: string, path: Path) {
    exists k :: 0 <= k < |entries| && HasId(entries[k], id) && HasPath(entries[k], path)
      && forall m :: 0 <= m < |entries| && m != k ==> !HasId(entries[m], id) && !HasPath(entries[m], path)
  }

  ghost predicate ChildListed(document: Json, kind: ReportKind, id: string, path: Path) {
    && LaneField(kind).Some?
    && LookupArray(document, [LaneField(kind).value]).Some?
    && var entries := LookupArray(document, [LaneField(kind).value]).value;
    && (forall i :: 0 <= i < |entries| ==> NamesAChild(entries[i]))
    && ListsChildOnce(entries, id, path)
  }

  const NAMED: Json -> bool := entry => NamesAChild(entry)

  method VerifyChildEntry(document: Json, kind: ReportKind, id: string, path: Path) returns (ok: bool)
    ensures ok <==> ChildListed(document, kind, id, path)
  {
    var field := LaneField(kind);
    if field.None? {
      return false;
    }
    var found := LookupArray(document, [field.value]);
    if found.None? {
      return false;
    }
    var idMatches, pathMatches, exactMatches, wellFormed :=
      CountMatches(found.value, NAMED, ById(id), ByPath(path), ByBoth(id, path));
    OneOfEachIffListedOnce(found.value, id, path);
    ok := wellFormed && idMatches == 1 && pathMatches == 1 && exactMatches == 1;
  }

  // One pass over the entries, stopping at the first that does not name a child.
  method CountMatches(entries: seq<Json>, named: Json -> bool, byId: Json -> bool, byPath: Json -> bool, byBoth: Json -> bool)
    returns (idMatches: nat, pathMatches: nat, exactMatches: nat, wellFormed: bool)
    requires forall e :: byBoth(e) <==> byId(e) && byPath(e)
    ensures wellFormed <==> forall i :: 0 <= i < |entries| ==> named(entries[i])
    ensures wellFormed ==>
      idMatches == Count(byId, entries) && pathMatches == Count(byPath, entries) && exactMatches == Count(byBoth, entries)
  {
    idMatches, pathMatches, exactMatches, wellFormed := 0, 0, 0, true;
    for i := 0 to |entries|
      invariant wellFormed && forall n :: 0 <= n < i ==> named(entries[n])
      invariant idMatches == Count(byId, entries[..i])
      invariant pathMatches == Count(byPath, entries[..i])
      invariant exactMatches == Count(byBoth, entries[..i])
    {
      CountExtends(byId, entries, i);
      CountExtends(byPath, entries, i);
      CountExtends(byBoth, entries, i);
      if !named(entries[i]) {
        return idMatches, pathMatches, exactMatches, false;
      }
      var hasId, hasPath := byId(entries[i]), byPath(entries[i]);
      idMatches := idMatches + if hasId then 1 else 0;
      pathMatches := pathMatches + if hasPath then 1 else 0;
      exactMatches := exactMatches + if hasId && hasPath then 1 else 0;
    }
    assert entries[..|entries|] == entries;
  }

  // The three counters are one exactly when one entry names the child and no other touches it.
  lemma OneOfEachIffListedOnce(entries: seq<Json>, id: string, path: Path)
    ensures
      Count(ById(id), entries) == 1 && Count(ByPath(path), entries) == 1 && Count(ByBoth(id, path), entries) == 1
      <==> ListsChildOnce(entries, id, path)
  {
    CountIsOne(ById(id), entries);
    CountIsOne(ByPath(path), entries);
    CountIsOne(ByBoth(id, path), entries);
    if Count(ById(id), entries) == 1 && Count(ByPath(path), entries) == 1 && Count(ByBoth(id, path), entries) == 1 {
      var k :| 0 <= k < |entries| && ByBoth(id, path)(entries[k]);
      assert ById(id)(entries[k]) && ByPath(path)(entries[k]);
      forall m | 0 <= m < |entries| && m != k
        ensures !HasId(entries[m], id) && !HasPath(entries[m], path)
      {
        assert !ById(id)(entries[m]) && !ByPath(path)(entries[m]);
      }
    }
    if ListsChildOnce(entries, id, path) {
      var k :| 0 <= k < |entries| && HasId(entries[k], id) && HasPath(entries[k], path)
        && forall m :: 0 <= m < |entries| && m != k ==> !HasId(entries[m], id) && !HasPath(entries[m], path);
      assert ById(id)(entries[k]) && ByPath(path)(entries[k]) && ByBoth(id, path)(entries[k]);
    }
  }

  // Two children accepted against one parent report have the same id exactly when they have
  // the same report path.
  lemma ChildIdsCorrespondToPaths(document: Json, kind: ReportKind, id1: string, path1: Path, id2: string, path2: Path)
    requires ChildListed(document, kind, id1, path1) && ChildListed(document, kind, id2, path2)
    ensures id1 == id2 <==> path1 == path2
  {
    var entries := LookupArray(document, [LaneField(kind).value]).value;
    var k :| 0 <= k < |entries| && HasId(entries[k], id1) && HasPath(entries[k], path1)
      && forall m :: 0 <= m < |entries| && m != k ==> !HasId(entries[m], id1) && !HasPath(entries[m], path1);
    var n :| 0 <= n < |entries| && HasId(entries[n], id2) && HasPath(entries[n], path2);
  }

  // ----- The slot of one child -----

  datatype Child = Child(profile: Profile, diskBytes: u64) {
    function Amount(): Amounts {
      Amounts(1, profile.memoryMb, profile.cpus, diskBytes)
    }
  }

  function Slot(total: u64, lanes: u64): Option<u64>
    requires lanes > 0
  {
    if total % lanes != 0 then None else Some(total / lanes)
  }

  predicate FitsSlot(l: Lease, child: Child)
    requires l.lanes > 0
  {
    var memory, cpus, disk := Slot(l.memoryMb, l.lanes), Slot(l.cpus, l.lanes), Slot(l.diskBytes, l.lanes);
    && memory.Some? && cpus.Some? && disk.Some?
    && child.profile.memoryMb <= memory.value
    && child.profile.cpus <= cpus.value
    && child.diskBytes <= disk.value
  }

  // A lease recorded for an admitted request divides into equal slots, each the size of the
  // admitted profile and image.
  lemma AdmittedLeaseDividesEvenly(leases: seq<Lease>, r: ReserveRequest)
    requires Admissible(leases, r)
    ensures
      var l := NewLease(r).value;
      && l.lanes > 0
      && Slot(l.memoryMb, l.lanes) == Some(r.request.profile.memoryMb)
      && Slot(l.cpus, l.lanes) == Some(r.request.profile.cpus)
      && r.request.sizeGb * BYTES_PER_GIB <= U64_MAX
      && Slot(l.diskBytes, l.lanes) == Some(r.request.sizeGb * BYTES_PER_GIB)
  {
    AdmittedTotals(r.request, Totals(leases));
    var lanes, size := r.request.lanes, r.request.sizeGb;
    SlotOfProduct(lanes, r.request.profile.memoryMb);
    SlotOfProduct(lanes, r.request.profile.cpus);
    Regrouped(lanes, size, BYTES_PER_GIB);
    SlotOfProduct(lanes, size * BYTES_PER_GIB);
  }

  lemma SlotOfProduct(lanes: u64, each: nat)
    requires 0 < lanes && lanes * each <= U64_MAX
    ensures each <= U64_MAX && Slot(lanes * each, lanes) == Some(each)
  {
    ProductDivides(lanes, each);
    TimesAtLeast(each, lanes);
  }

  lemma Regrouped(a: nat, b: nat, c: nat)
    ensures a * b * c == a * (b * c)
  {
  }

  // Each lease in the ledger of a serial history divides into equal slots, those of the request
  // it was admitted for: a child check never meets a lease that does not divide.
  lemma EveryLeaseDividesEvenly(log: seq<Commit>, l: Lease) returns (k: nat)
    requires Serial(log) && l in LeasesIn(Replay(log))
    ensures k < |log| && log[k].AdmitCommit? && NewLease(log[k].r) == Some(l) && l.lanes > 0
    ensures
      var request := log[k].r.request;
      && Slot(l.memoryMb, l.lanes) == Some(request.profile.memoryMb)
      && Slot(l.cpus, l.lanes) == Some(request.profile.cpus)
      && request.sizeGb * BYTES_PER_GIB <= U64_MAX
      && Slot(l.diskBytes, l.lanes) == Some(request.sizeGb * BYTES_PER_GIB)
  {
    k := EveryLeaseWasAdmitted(log, l);
    AdmittedLeaseDividesEvenly(LeasesIn(Replay(log[..k])), log[k].r);
  }

  // So does each lease a child check can meet in any run from the empty start.
  lemma ReachableLeasesDivideEvenly(states: seq<State>, steps: seq<Step>, n: nat, l: Lease)
    requires Run(states, steps) && Init(states[0]) && n < |states| && l in LeasesIn(states[n].file)
    ensures l.lanes > 0
    ensures Slot(l.memoryMb, l.lanes).Some? && Slot(l.cpus, l.lanes).Some? && Slot(l.diskBytes, l.lanes).Some?
  {
    RunsRefineSerialHistories(states, steps, n);
    var k := EveryLeaseDividesEvenly(states[n].log, l);
  }

  function Used(children: seq<Child>): Amounts {
    if children == [] then NOTHING else Used(children[..|children| - 1]).Plus(children[|children| - 1].Amount())
  }

  // Children that each fit a slot use at most one slot each.
  lemma {:induction false} ChildrenUseTheirSlots(l: Lease, children: seq<Child>, memory: nat, cpus: nat, disk: nat)
    requires l.lanes > 0 && forall c :: c in children ==> FitsSlot(l, c)
    requires children != [] ==>
      Slot(l.memoryMb, l.lanes) == Some(memory) && Slot(l.cpus, l.lanes) == Some(cpus) && Slot(l.diskBytes, l.lanes) == Some(disk)
    ensures Used(children).AtMost(Amounts(|children|, |children| * memory, |children| * cpus, |children| * disk))
  {
    if children != [] {
      var init := children[..|children| - 1];
      ChildrenUseTheirSlots(l, init, memory, cpus, disk);
      assert FitsSlot(l, children[|children| - 1]);
      assert |children| * memory == |init| * memory + memory;
      assert |children| * cpus == |init| * cpus + cpus;
      assert |children| * disk == |init| * disk + disk;
    }
  }

  // As many children as the lease has lanes never use more than the lease.
  lemma ChildrenFitTheLease(l: Lease, children: seq<Child>)
    requires l.lanes > 0 && |children| <= l.lanes
    requires forall c :: c in children ==> FitsSlot(l, c)
    ensures Used(children).AtMost(l.Amount())
  {
    if children != [] {
      assert FitsSlot(l, children[0]);
      var memory, cpus, disk := l.memoryMb / l.lanes, l.cpus / l.lanes, l.diskBytes / l.lanes;
      ChildrenUseTheirSlots(l, children, memory, cpus, disk);
      ScaledSlots(|children|, l.lanes, memory, l.memoryMb);
      ScaledSlots(|children|, l.lanes, cpus, l.cpus);
      ScaledSlots(|children|, l.lanes, disk, l.diskBytes);
    }
  }

  lemma ScaledSlots(n: nat, lanes: nat, slot: nat, total: nat)
    requires 0 < lanes && n <= lanes && slot == total / lanes
    ensures n * slot <= total
  {
    assert total == lanes * slot + total % lanes;
    assert n * slot <= lanes * slot;
  }

  // ----- Entries and slots in plain terms -----

  // The entry gives a run id and a report path as texts; paths are compared as paths.
  ghost predicate EntryOf(entry: Json, id: string, path: Path) {
    && TextAt(entry, ["run_id"], id)
    && exists text :: TextAt(entry, ["report"], text) && ParsePath(text) == path
  }

  lemma EntryIff(entry: Json, id: string, path: Path)
    ensures HasId(entry, id) && HasPath(entry, path) <==> EntryOf(entry, id, path)
    ensures HasId(entry, id) <==> TextAt(entry, ["run_id"], id)
    ensures HasPath(entry, path) <==> exists text :: TextAt(entry, ["report"], text) && ParsePath(text) == path
    ensures NamesAChild(entry) <==> exists i, p :: EntryOf(entry, i, p) && p.absolute
  {
    OneKey(entry, "run_id");
    OneKey(entry, "report");
    if NamesAChild(entry) {
      assert EntryOf(entry, entry.GetStr("run_id").value, ParsePath(entry.GetStr("report").value));
    }
  }

  // The entries of a session: batches list children under `runs`, fan-outs under `lanes`.
  ghost predicate EntriesOf(document: Json, kind: ReportKind, entries: seq<Json>) {
    || (kind.EnvironmentBatch? && Lookup(document, ["runs"]) == Some(Array(entries)))
    || (kind.FlowFanout? && Lookup(document, ["lanes"]) == Some(Array(entries)))
  }

  ghost predicate SomeChild(entry: Json) {
    exists id, path :: EntryOf(entry, id, path) && path.absolute
  }

  ghost predicate OtherChild(entry: Json, id: string, path: Path) {
    !TextAt(entry, ["run_id"], id) && forall text :: TextAt(entry, ["report"], text) ==> ParsePath(text) != path
  }

  // Every entry names a child, one is this child, and no other shares its id or its path.
  ghost predicate ListsOnly(entries: seq<Json>, id: string, path: Path) {
    && (forall i :: 0 <= i < |entries| ==> SomeChild(entries[i]))
    && exists k :: 0 <= k < |entries| && EntryOf(entries[k], id, path)
         && forall m :: 0 <= m < |entries| && m != k ==> OtherChild(entries[m], id, path)
  }

  lemma ListsOnlyIff(entries: seq<Json>, id: string, path: Path)
    ensures ListsOnly(entries, id, path) <==>
            (forall i :: 0 <= i < |entries| ==> NamesAChild(entries[i])) && ListsChildOnce(entries, id, path)
  {
    forall i | 0 <= i < |entries|
      ensures NamesAChild(entries[i]) <==> SomeChild(entries[i])
      ensures HasId(entries[i], id) && HasPath(entries[i], path) <==> EntryOf(entries[i], id, path)
      ensures !HasId(entries[i], id) && !HasPath(entries[i], path) <==> OtherChild(entries[i], id, path)
    {
      EntryIff(entries[i], id, path);
    }
  }

  // A child is covered exactly when its session lists it so.
  lemma ChildListedIff(document: Json, kind: ReportKind, id: string, path: Path)
    ensures ChildListed(document, kind, id, path) <==>
            exists entries :: EntriesOf(document, kind, entries) && ListsOnly(entries, id, path)
  {
    if ChildListed(document, kind, id, path) {
      var entries := LookupArray(document, [LaneField(kind).value]).value;
      ListsOnlyIff(entries, id, path);
      assert EntriesOf(document, kind, entries);
    }
    if entries :| EntriesOf(document, kind, entries) && ListsOnly(entries, id, path) {
      ListsOnlyIff(entries, id, path);
    }
  }

  // A total has slots exactly when it divides by the lanes, and a child fits exactly when it
  // needs no more than one slot of each resource.
  lemma SlotIff(total: u64, lanes: u64, slot: nat)
    requires lanes > 0
    ensures Slot(total, lanes) == Some(slot) <==> slot * lanes == total
  {
    if slot * lanes == total {
      DivideExactly(total, lanes, slot);
    }
  }

  lemma FitsSlotIff(l: Lease, child: Child, memory: nat, cpus: nat, disk: nat)
    requires l.lanes > 0
    requires Slot(l.memoryMb, l.lanes) == Some(memory) && Slot(l.cpus, l.lanes) == Some(cpus)
    requires Slot(l.diskBytes, l.lanes) == Some(disk)
    ensures FitsSlot(l, child) <==>
            child.profile.memoryMb <= memory && child.profile.cpus <= cpus && child.diskBytes <= disk
  {
  }

  // What children use adds up, each counting as one lane.
  lemma UsedAddsUp(children: seq<Child>, child: Child)
    ensures Used([]) == Amounts(0, 0, 0, 0)
    ensures
      var before, after := Used(children), Used(children + [child]);
      && after.lanes == before.lanes + 1 && after.memoryMb == before.memoryMb + child.profile.memoryMb
      && after.cpus == before.cpus + child.profile.cpus && after.diskBytes == before.diskBytes + child.diskBytes
  {
    assert (children + [child])[..|children|] == children;
  }
}
