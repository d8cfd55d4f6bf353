/** The directory-size ledger: cached sizes of subdirectories, keyed by path text. */
module ScanLedgers {
  import opened Common
  import opened Strings

  datatype Signature = Signature(mtimeNs: int, entryCount: Option<nat>)

  datatype Record = Record(bytes: nat, sig: Option<Signature>, scannedAtMs: nat)

  // A directory entry: whether its metadata can be read, and what it is.
  datatype Kind = Directory | File(length: nat) | Unreadable
  datatype Entry = Entry(name: string, kind: Kind)

  // What one scan sees of the file system: signatures of paths, and the deep size that the
  // caller's scan reports for a path.
  datatype Disk = Disk(signature: string -> Option<Signature>, deepSize: string -> nat)

  function ChildKey(path: string, name: string): string {
    if path == "" || path[|path| - 1] == '/' then path + name else path + "/" + name
  }

  // `now.saturating_sub(scanned) <= max_age`: a record from the future is fresh.
  predicate Fresh(r: Record, sig: Signature, nowMs: nat, maxAgeMs: nat) {
    r.sig == Some(sig) && nowMs - r.scannedAtMs <= maxAgeMs
  }

  type Records = map<string, Record>

  // The size, whether it was scanned again, and the records afterwards.
  datatype Resolved = Resolved(bytes: nat, rescanned: bool, records: Records)

  function ResolveBytes(disk: Disk, records: Records, path: string, nowMs: nat, maxAgeMs: nat): Resolved {
    var sig := disk.signature(path);
    if sig.None? then Resolved(0, false, records - {path})
    else if path in records && Fresh(records[path], sig.value, nowMs, maxAgeMs) then
      Resolved(records[path].bytes, false, records)
    else
      var bytes := disk.deepSize(path);
      Resolved(bytes, true, records[path := Record(bytes, sig, nowMs)])
  }

  function ResolveEntry(disk: Disk, so: Resolved, path: string, e: Entry, nowMs: nat, maxAgeMs: nat): Resolved {
    match e.kind
    case Unreadable => so
    case File(length) => so.(bytes := so.bytes + length)
    case Directory =>
      var r := ResolveBytes(disk, so.records, ChildKey(path, e.name), nowMs, maxAgeMs);
      Resolved(so.bytes + r.bytes, so.rescanned || r.rescanned, r.records)
  }

  function ResolveEntries(disk: Disk, records: Records, path: string, entries: seq<Entry>, nowMs: nat, maxAgeMs: nat): Resolved {
    if entries == [] then Resolved(0, false, records)
    else ResolveEntry(disk, ResolveEntries(disk, records, path, entries[..|entries| - 1], nowMs, maxAgeMs),
                      path, entries[|entries| - 1], nowMs, maxAgeMs)
  }

  predicate Below(path: string, key: string) {
    path + "/" <= key
  }

  // The key of the child that a deeper key lies in, as the retain step reconstructs it.
  function ChildOf(path: string, key: string): string
    requires Below(path, key)
  {
    path + "/" + Split(key[|path| + 1..], '/')[0]
  }

  predicate Retained(path: string, live: set<string>, key: string) {
    Below(path, key) ==> ChildOf(path, key) in live
  }

  function LiveKeys(path: string, entries: seq<Entry>): set<string> {
    set i | 0 <= i < |entries| :: ChildKey(path, entries[i].name)
  }

  function Kept(records: Records, path: string, live: set<string>): Records {
    map key | key in records && Retained(path, live, key) :: records[key]
  }

  class ScanLedger {
    var records: Records

    constructor ()
      ensures records == map[]
    {
      records := map[];
    }

    method Resolve(disk: Disk, path: string, nowMs: nat, maxAgeMs: nat) returns (bytes: nat, rescanned: bool)
      modifies this
      ensures Resolved(bytes, rescanned, records) == ResolveBytes(disk, old(records), path, nowMs, maxAgeMs)
    {
      var sig := disk.signature(path);
      if sig.None? {
        records := records - {path};
        return 0, false;
      }
      if path in records {
        var record := records[path];
        if record.sig == sig && nowMs - record.scannedAtMs <= maxAgeMs {
          return record.bytes, false;
        }
      }
      bytes := disk.deepSize(path);
      records := records[path := Record(bytes, sig, nowMs)];
      rescanned := true;
    }

    // `entries` is the directory listing, None when it cannot be read.
    method ResolveDirByChildren(disk: Disk, path: string, entries: Option<seq<Entry>>, nowMs: nat, maxAgeMs: nat)
      returns (total: nat, rescanned: bool)
      modifies this
      ensures entries.None? ==> total == 0 && !rescanned && records == old(records)
      ensures entries.Some? ==>
        var r := ResolveEntries(disk, old(records), path, entries.value, nowMs, maxAgeMs);
        total == r.bytes && rescanned == r.rescanned
        && records == Kept(r.records, path, LiveKeys(path, entries.value))
    {
      total, rescanned := 0, false;
      if entries.None? {
        return;
      }
      var listing := entries.value;
      var live: set<string> := {};
      for i := 0 to |listing|
        invariant Resolved(total, rescanned, records) ==
          ResolveEntries(disk, old(records), path, listing[..i], nowMs, maxAgeMs)
        invariant live == LiveKeys(path, listing[..i])
      {
        assert listing[..i + 1][..i] == listing[..i];
        var child := ChildKey(path, listing[i].name);
        live := live + {child};
        match listing[i].kind {
          case Unreadable =>
          case File(length) =>
            total := total + length;
          case Directory =>
            var bytes, changed := Resolve(disk, child, nowMs, maxAgeMs);
            total := total + bytes;
            rescanned := rescanned || changed;
        }
      }
      assert listing[..|listing|] == listing;
      records := Kept(records, path, live);
    }
  }

  // ----- Agreement with the plain sum -----

  // Cached sizes can be trusted: a record that counts as fresh has the deep size of its path.
  ghost predicate Trustworthy(disk: Disk, records: Records, nowMs: nat, maxAgeMs: nat) {
    forall path | path in records && disk.signature(path).Some? ::
      Fresh(records[path], disk.signature(path).value, nowMs, maxAgeMs) ==> records[path].bytes == disk.deepSize(path)
  }

  // Subdirectories of the listing exist for the whole scan.
  ghost predicate FixedTree(disk: Disk, path: string, entries: seq<Entry>) {
    forall e :: e in entries && e.kind.Directory? ==> disk.signature(ChildKey(path, e.name)).Some?
  }

  function PlainSize(disk: Disk, path: string, e: Entry): nat {
    match e.kind
    case Directory => disk.deepSize(ChildKey(path, e.name))
    case File(length) => length
    case Unreadable => 0
  }

  function PlainSum(disk: Disk, path: string, entries: seq<Entry>): nat {
    if entries == [] then 0
    else PlainSum(disk, path, entries[..|entries| - 1]) + PlainSize(disk, path, entries[|entries| - 1])
  }

  lemma ResolveIsDeepSize(disk: Disk, records: Records, path: string, nowMs: nat, maxAgeMs: nat)
    requires Trustworthy(disk, records, nowMs, maxAgeMs) && disk.signature(path).Some?
    ensures
      var r := ResolveBytes(disk, records, path, nowMs, maxAgeMs);
      && r.bytes == disk.deepSize(path)
      && Trustworthy(disk, r.records, nowMs, maxAgeMs)
  {
  }

  // The cached walk returns exactly the sum of the deep sizes of the live subdirectories and
  // the lengths of the live files.
  lemma {:induction false} ResolvedTotalIsPlainSum(disk: Disk, records: Records, path: string, entries: seq<Entry>, nowMs: nat, maxAgeMs: nat)
    requires Trustworthy(disk, records, nowMs, maxAgeMs) && FixedTree(disk, path, entries)
    ensures
      var r := ResolveEntries(disk, records, path, entries, nowMs, maxAgeMs);
      r.bytes == PlainSum(disk, path, entries) && Trustworthy(disk, r.records, nowMs, maxAgeMs)
  {
    if entries != [] {
      var init, last := entries[..|entries| - 1], entries[|entries| - 1];
      assert forall e :: e in init ==> e in entries;
      ResolvedTotalIsPlainSum(disk, records, path, init, nowMs, maxAgeMs);
      if last.kind.Directory? {
        ResolveIsDeepSize(disk, ResolveEntries(disk, records, path, init, nowMs, maxAgeMs).records,
                          ChildKey(path, last.name), nowMs, maxAgeMs);
      }
    }
  }

  // Records change only at listed subdirectories, and every new size is one the deep scan returned.
  lemma {:induction false} OnlyListedRecordsChange(disk: Disk, records: Records, path: string, entries: seq<Entry>,
                                                   nowMs: nat, maxAgeMs: nat, key: string)
    ensures
      var after := ResolveEntries(disk, records, path, entries, nowMs, maxAgeMs).records;
      && (key !in LiveKeys(path, entries) ==>
            (key in after <==> key in records) && (key in after ==> after[key] == records[key]))
      && (key in after && (key !in records || after[key] != records[key]) ==>
            after[key] == Record(disk.deepSize(key), disk.signature(key), nowMs))
  {
    if entries != [] {
      OnlyListedRecordsChange(disk, records, path, entries[..|entries| - 1], nowMs, maxAgeMs, key);
      var last := entries[|entries| - 1];
      assert ChildKey(path, last.name) in LiveKeys(path, entries);
      LiveKeysGrow(path, entries, key);
    }
  }

  lemma LiveKeysGrow(path: string, entries: seq<Entry>, key: string)
    requires entries != []
    ensures key in LiveKeys(path, entries[..|entries| - 1]) ==> key in LiveKeys(path, entries)
  {
    var init := entries[..|entries| - 1];
    if key in LiveKeys(path, init) {
      var i :| 0 <= i < |init| && key == ChildKey(path, init[i].name);
      assert entries[i] == init[i];
    }
  }

  // ----- Forgetting vanished children -----

  predicate PlainPath(path: string) {
    path != "" && path[|path| - 1] != '/'
  }

  lemma ChildKeyIsBelow(path: string, name: string, deeper: string)
    requires PlainPath(path) && '/' !in name && (deeper == "" || deeper[0] == '/')
    ensures Below(path, ChildKey(path, name) + deeper)
    ensures ChildOf(path, ChildKey(path, name) + deeper) == ChildKey(path, name)
  {
    var key := ChildKey(path, name) + deeper;
    assert key == path + "/" + (name + deeper);
    assert key[|path| + 1..] == name + deeper;
    if deeper == "" {
      assert name + deeper == name;
      SplitWithoutSeparator(name, '/');
    } else {
      assert name + deeper == name + ['/'] + deeper[1..];
      SplitAtSeparator(name, deeper[1..], '/');
      SplitWithoutSeparator(name, '/');
    }
  }

  // Below a plain directory path, a record survives exactly when its child is still listed;
  // everywhere else every record survives.
  lemma VanishedChildrenAreForgotten(records: Records, path: string, entries: seq<Entry>, name: string, deeper: string)
    requires PlainPath(path) && '/' !in name && (deeper == "" || deeper[0] == '/')
    requires ChildKey(path, name) + deeper in records
    ensures
      ChildKey(path, name) + deeper in Kept(records, path, LiveKeys(path, entries)) <==>
      exists i :: 0 <= i < |entries| && entries[i].name == name
  {
    ChildKeyIsBelow(path, name, deeper);
    if ChildKey(path, name) in LiveKeys(path, entries) {
      var i :| 0 <= i < |entries| && ChildKey(path, entries[i].name) == ChildKey(path, name);
      assert ChildKey(path, entries[i].name)[|path| + 1..] == entries[i].name;
      assert ChildKey(path, name)[|path| + 1..] == name;
    }
  }

  lemma OutsideIsUntouched(records: Records, path: string, live: set<string>, key: string)
    requires key in records && !Below(path, key)
    ensures key in Kept(records, path, live) && Kept(records, path, live)[key] == records[key]
  {
  }

  // With a path that already ends in a separator the prefix has two, no child key has it, and
  // the records of vanished children stay.
  lemma TrailingSeparatorForgetsNothing(records: Records, path: string, live: set<string>, name: string, deeper: string)
    requires path != "" && path[|path| - 1] == '/'
    requires name != "" && name[0] != '/' && ChildKey(path, name) + deeper in records
    ensures ChildKey(path, name) + deeper in Kept(records, path, live)
  {
    var key := ChildKey(path, name) + deeper;
    assert key[|path|] == name[0];
    assert (path + "/")[|path|] == '/';
  }

  // ----- One path and one walk, in plain terms -----

  // A path that is gone has size zero and loses its record; a record with the present signature
  // and not older than allowed is reused; otherwise the path is scanned and recorded anew.
  lemma ResolveIs(disk: Disk, records: Records, path: string, nowMs: nat, maxAgeMs: nat)
    ensures
      var sig, r := disk.signature(path), ResolveBytes(disk, records, path, nowMs, maxAgeMs);
      var usable := path in records && sig.Some? && records[path].sig.Some? && records[path].sig.value == sig.value
        && (records[path].scannedAtMs >= nowMs || nowMs - records[path].scannedAtMs <= maxAgeMs);
      && (sig.None? ==> r.bytes == 0 && !r.rescanned && path !in r.records && r.records == records - {path})
      && (usable ==> r.bytes == records[path].bytes && !r.rescanned && r.records == records)
      && (sig.Some? && !usable ==>
            && r.bytes == disk.deepSize(path) && r.rescanned
            && r.records == records[path := Record(disk.deepSize(path), sig, nowMs)])
  {
  }

  // The key of a child is its parent's path, a separator unless there is one, and its name.
  lemma ChildKeyIs(path: string, name: string)
    ensures ChildKey(path + "/", name) == path + "/" + name
    ensures path != "" && path[|path| - 1] != '/' ==> ChildKey(path, name) == path + "/" + name
    ensures ChildKey("", name) == name
  {
  }

  ghost predicate NamesDistinct(path: string, entries: seq<Entry>) {
    forall i, j :: 0 <= i < j < |entries| ==> ChildKey(path, entries[i].name) != ChildKey(path, entries[j].name)
  }

  // A walk counts as a scan exactly when some listed subdirectory had to be scanned.
  lemma {:induction false} RescannedIffSomeChildIs(disk: Disk, records: Records, path: string, entries: seq<Entry>, nowMs: nat, maxAgeMs: nat)
    requires NamesDistinct(path, entries)
    ensures ResolveEntries(disk, records, path, entries, nowMs, maxAgeMs).rescanned <==>
      exists i :: 0 <= i < |entries| && entries[i].kind.Directory?
        && ResolveBytes(disk, records, ChildKey(path, entries[i].name), nowMs, maxAgeMs).rescanned
  {
    if entries != [] {
      var init, last := entries[..|entries| - 1], entries[|entries| - 1];
      var key := ChildKey(path, last.name);
      RescannedIffSomeChildIs(disk, records, path, init, nowMs, maxAgeMs);
      assert key !in LiveKeys(path, init);
      OnlyListedRecordsChange(disk, records, path, init, nowMs, maxAgeMs, key);
      assert forall i :: 0 <= i < |init| ==> init[i] == entries[i];
    }
  }
}
