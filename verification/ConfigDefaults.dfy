/** Collecting the defaults of a contract into one nested JSON object. */
module ConfigDefaults {
  import opened Common
  import opened JsonValues
  import opened ConfigSpecs
  import opened ConfigKeys
  import opened DefaultsTree
  import opened FieldValues
  import opened Folds

  function DefaultValue(t: NumberText, f: Field): FieldValue
    requires f.declared.Some?
  {
    Widen(t, f.declared.value, f.kind)
  }

  function EntryOf(t: NumberText): Field -> seq<Entry> {
    (f: Field) => if f.HasStoredValue() && f.declared.Some? then [Entry(f.Path(), ToJson(DefaultValue(t, f)))] else []
  }

  function DefaultEntries(t: NumberText, spec: Spec): seq<Entry> {
    FlatMap(EntryOf(t), spec)
  }

  function Defaults(t: NumberText, spec: Spec): Json {
    Object(InsertAll(map[], DefaultEntries(t, spec)).tree)
  }

  // The entry a field contributes, if it has one.
  method EntryFor(t: NumberText, f: Field) returns (entry: Option<Entry>)
    ensures EntryOf(t)(f) == if entry.Some? then [entry.value] else []
  {
    if !f.HasStoredValue() {
      return None;
    }
    if f.declared.None? {
      return None;
    }
    return Some(Entry(f.Path(), ToJson(DefaultValue(t, f))));
  }

  // The default of the n-th field cannot be inserted where the defaults before it are.
  ghost predicate Fails(t: NumberText, spec: Spec, n: nat)
    requires n < |spec|
  {
    && spec[n].HasStoredValue() && spec[n].declared.Some?
    && !Insert(InsertAll(map[], DefaultEntries(t, spec[..n])).tree, spec[n].Path(), ToJson(DefaultValue(t, spec[n]))).ok
  }

  ghost predicate NamesFailures(errors: seq<string>, t: NumberText, spec: Spec, n: nat)
    requires n <= |spec|
  {
    forall id :: id in errors <==> FailedBefore(t, spec, n, id)
  }

  ghost predicate FailedBefore(t: NumberText, spec: Spec, n: nat, id: string)
    requires n <= |spec|
  {
    exists m :: 0 <= m < n && spec[m].id == id && Fails(t, spec, m)
  }

  lemma NamesOneMore(errors: seq<string>, t: NumberText, spec: Spec, n: nat, root: Tree)
    requires n < |spec| && NamesFailures(errors, t, spec, n)
    requires root == InsertAll(map[], DefaultEntries(t, spec[..n])).tree
    ensures
      var entry := EntryOf(t)(spec[n]);
      if entry != [] && !Insert(root, entry[0].path, entry[0].value).ok
      then NamesFailures(errors + [spec[n].id], t, spec, n + 1) else NamesFailures(errors, t, spec, n + 1)
  {
    var entry := EntryOf(t)(spec[n]);
    assert Fails(t, spec, n) <==> entry != [] && !Insert(root, entry[0].path, entry[0].value).ok;
    forall id
      ensures FailedBefore(t, spec, n + 1, id) <==> FailedBefore(t, spec, n, id) || (spec[n].id == id && Fails(t, spec, n))
    {
    }
  }

  // Collects every default and reports the fields whose insertion failed.
  method CollectDefaults(t: NumberText, spec: Spec) returns (r: Result<Json, seq<string>>)
    ensures r.Ok? <==> InsertAll(map[], DefaultEntries(t, spec)).ok
    ensures r.Ok? ==> r.value == Defaults(t, spec)
    ensures r.Err? ==> r.error != []
    ensures r.Err? ==> NamesFailures(r.error, t, spec, |spec|)
  {
    var root: Tree := map[];
    var errors: seq<string> := [];
    ghost var start, entryOf := Inserted(map[], true), EntryOf(t);
    for n := 0 to |spec|
      invariant NamesFailures(errors, t, spec, n)
      invariant Inserted(root, errors == []) == Fold(InsertStep, start, FlatMap(entryOf, spec[..n]))
    {
      var entry := EntryFor(t, spec[n]);
      NamesOneMore(errors, t, spec, n, root);
      if entry.None? {
        FlatMapSkips(entryOf, spec, n);
      } else {
        FlatMapExtends(entryOf, spec, n);
        FoldAppend(InsertStep, start, FlatMap(entryOf, spec[..n]), entry.value);
        var inserted := Insert(root, entry.value.path, entry.value.value);
        root := inserted.tree;
        if !inserted.ok {
          errors := errors + [spec[n].id];
        }
      }
    }
    assert spec[..|spec|] == spec;
    r := if errors == [] then Ok(Object(root)) else Err(errors);
  }

  lemma AppendEntry(entries: seq<Entry>, e: Entry)
    ensures InsertAll(map[], entries + [e]) == InsertStep(InsertAll(map[], entries), e)
  {
    FoldAppend(InsertStep, Inserted(map[], true), entries, e);
  }

  // ----- Every accepted spec -----

  // An accepted spec, whatever the order of its fields: stored paths pairwise apart.
  ghost predicate SpecPathsApart(spec: Spec) {
    forall f, g :: f in spec && g in spec && f != g && f.HasStoredValue() && g.HasStoredValue() ==>
      Apart(f.Path(), g.Path())
  }

  lemma {:induction false} StoredFieldsAreDistinct(spec: Spec)
    requires Distinct(spec)
    ensures Distinct(StoredFields(spec))
    ensures forall f :: f in StoredFields(spec) <==> f in spec && f.HasStoredValue()
  {
    if spec != [] {
      var init := spec[..|spec| - 1];
      assert spec == init + [spec[|spec| - 1]];
      StoredFieldsAreDistinct(init);
    }
  }

  lemma AcceptedIffPathsApart(spec: Spec)
    requires Distinct(spec)
    ensures PathsApart(StoredFields(spec)) <==> SpecPathsApart(spec)
  {
    StoredFieldsAreDistinct(spec);
    var stored := StoredFields(spec);
    if PathsApart(stored) {
      forall f, g | f in spec && g in spec && f != g && f.HasStoredValue() && g.HasStoredValue()
        ensures Apart(f.Path(), g.Path())
      {
        assert f in stored && g in stored;
        var i :| 0 <= i < |stored| && stored[i] == f;
        var j :| 0 <= j < |stored| && stored[j] == g;
      }
    }
  }

  lemma {:induction false} DefaultEntriesApart(t: NumberText, spec: Spec)
    requires Distinct(spec) && SpecPathsApart(spec)
    ensures EntriesApart(DefaultEntries(t, spec))
  {
    if spec != [] {
      var init, last := spec[..|spec| - 1], spec[|spec| - 1];
      assert spec == init + [last];
      DefaultEntriesApart(t, init);
      var entries := DefaultEntries(t, init);
      forall i | 0 <= i < |entries| && last.HasStoredValue()
        ensures Apart(entries[i].path, last.Path())
      {
        EntryComesFromField(t, init, entries[i]);
      }
    }
  }

  lemma EntryComesFromField(t: NumberText, spec: Spec, e: Entry)
    requires e in DefaultEntries(t, spec)
    ensures exists f :: f in spec && f.HasStoredValue() && f.Path() == e.path
  {
    FlatMapMembers(EntryOf(t), spec, e);
    var n :| 0 <= n < |spec| && e in EntryOf(t)(spec[n]);
    assert spec[n] in spec;
  }

  // Collection succeeds for every accepted spec, in any field order, and every default is
  // read back at its key.
  lemma AcceptedDefaultsReadBack(t: NumberText, spec: Spec, f: Field)
    requires Distinct(spec) && PathsApart(StoredFields(spec))
    requires f in spec && f.HasStoredValue() && f.declared.Some?
    ensures InsertAll(map[], DefaultEntries(t, spec)).ok
    ensures Lookup(Defaults(t, spec), f.Path()) == Some(ToJson(DefaultValue(t, f)))
  {
    AcceptedIffPathsApart(spec);
    DefaultEntriesApart(t, spec);
    var entries := DefaultEntries(t, spec);
    var e := EntryOf(t)(f)[0];
    var n :| 0 <= n < |spec| && spec[n] == f;
    assert e in EntryOf(t)(spec[n]);
    FlatMapMembers(EntryOf(t), spec, e);
    var i :| 0 <= i < |entries| && entries[i] == e;
    ApartEntriesAllFound(entries, i);
  }

  lemma AcceptedDefaultsAnyOrder(t: NumberText, spec: Spec, reordered: Spec)
    requires Distinct(spec) && Distinct(reordered) && forall f :: f in spec <==> f in reordered
    requires PathsApart(StoredFields(spec))
    ensures PathsApart(StoredFields(reordered))
    ensures InsertAll(map[], DefaultEntries(t, reordered)).ok
    ensures Defaults(t, reordered) == Defaults(t, spec)
  {
    AcceptedIffPathsApart(spec);
    AcceptedIffPathsApart(reordered);
    DefaultEntriesApart(t, spec);
    DefaultEntriesApart(t, reordered);
    var a, b := DefaultEntries(t, spec), DefaultEntries(t, reordered);
    forall e
      ensures e in a <==> e in b
    {
      SameEntries(t, spec, reordered, e);
      SameEntries(t, reordered, spec, e);
    }
    OrderDoesNotMatter(a, b);
    ApartEntriesSucceed(b);
  }

  lemma SameEntries(t: NumberText, spec: Spec, reordered: Spec, e: Entry)
    requires forall f :: f in spec ==> f in reordered
    ensures e in DefaultEntries(t, spec) ==> e in DefaultEntries(t, reordered)
  {
    FlatMapMembers(EntryOf(t), spec, e);
    FlatMapMembers(EntryOf(t), reordered, e);
    if e in DefaultEntries(t, spec) {
      var i :| 0 <= i < |spec| && e in EntryOf(t)(spec[i]);
      assert spec[i] in reordered;
      var j :| 0 <= j < |reordered| && reordered[j] == spec[i];
    }
  }

  // The check is not stricter than needed: two stored fields with defaults whose paths are
  // comparable fail in the order that puts the longer path first.
  lemma ComparableFieldsFailLongerFirst(t: NumberText, longer: Field, shorter: Field)
    requires longer.HasStoredValue() && longer.declared.Some?
    requires shorter.HasStoredValue() && shorter.declared.Some?
    requires shorter.Path() <= longer.Path()
    ensures !InsertAll(map[], DefaultEntries(t, [longer, shorter])).ok
  {
    var first, second := EntryOf(t)(longer)[0], EntryOf(t)(shorter)[0];
    var spec := [longer, shorter];
    FlatMapExtends(EntryOf(t), spec, 0);
    FlatMapExtends(EntryOf(t), spec, 1);
    assert spec[..0] == [] && spec[..2] == spec;
    assert DefaultEntries(t, spec) == [] + [first] + [second];
    AppendEntry([], first);
    AppendEntry([first], second);
    EmptyTreeAccepts(first.path, first.value);
    ComparablePathsFail(map[], first.path, first.value, second.path, second.value);
  }
}
