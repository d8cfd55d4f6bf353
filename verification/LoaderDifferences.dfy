/**
 One concrete contract and file for each way in which the loader and the settings editor come
 to show different values.
 */
module LoaderDifferences {
  import opened Common
  import opened JsonValues
  import opened ConfigSpecs
  import opened FieldValues
  import opened Strings
  import opened ConfigDefaults
  import opened Merging
  import opened SelectNormalization
  import opened ConfigResolution
  import opened LoaderAgreement

  function PlainField(id: string, kind: FieldKind, default: FieldValue): Field {
    Field(id, kind, None, Some(default), [], false, false)
  }

  const EMPTY_FILE := Object(map[])

  lemma SoleFieldIsValid(t: NumberText, f: Field)
    requires f.HasStoredValue() && f.declared.Some? && MatchesKind(DefaultValue(t, f), f.kind)
    ensures ValidSpec(t, [f]) && f in [f]
  {
    AcceptedIffPathsApart([f]);
  }

  // Without a static select field the file is its own normal form.
  lemma NothingToNormalize(f: Field, file: Json)
    requires !f.IsStaticSelect()
    ensures Normalize([f], file) == file
  {
    FixedBySteps([f], file);
  }

  lemma PathOfA()
    ensures Split("a", '.') == ["a"]
    ensures Split("a.b", '.') == ["a", "b"]
  {
    SplitWithoutSeparator("a", '.');
    SplitWithoutSeparator("b", '.');
    SplitAtSeparator("a", "b", '.');
    assert "a" + ['.'] + "b" == "a.b";
  }

  // An ancestor of the key is overridden by a number: the loader finds nothing.
  lemma BlockedAncestor(t: NumberText)
    ensures
      var f, file := PlainField("a.b", StringKind, Text("x")), Object(map["a" := Num(Integer(1))]);
      && ValidSpec(t, [f])
      && LoaderView(t, [f], f, file) == None
      && ResolvedValue(t, f, Normalize([f], file)) == Text("x")
  {
    var f, file := PlainField("a.b", StringKind, Text("x")), Object(map["a" := Num(Integer(1))]);
    PathOfA();
    SoleFieldIsValid(t, f);
    NothingToNormalize(f, file);
    MergeLookup(Defaults(t, [f]), file, f.Path());
    CanonicalizeLookup(Merge(Defaults(t, [f]), file), f.Path());
    assert Blocked(file, f.Path());
    assert Lookup(file, f.Path()) == None;
  }

  // The override is null: the loader cannot read it, the editor shows the default.
  lemma UndecodableOverride(t: NumberText)
    ensures
      var f, file := PlainField("a", StringKind, Text("x")), Object(map["a" := Null]);
      && ValidSpec(t, [f])
      && LoaderView(t, [f], f, file) == None
      && ResolvedValue(t, f, Normalize([f], file)) == Text("x")
  {
    var f, file := PlainField("a", StringKind, Text("x")), Object(map["a" := Null]);
    PathOfA();
    SoleFieldIsValid(t, f);
    NothingToNormalize(f, file);
    assert Lookup(file, f.Path()) == Some(Null);
    LoaderReadsOverride(t, [f], f, file);
  }

  const ENTRY := ObjectMap(map["k" := Item(map["m" := Boolean(true)])])

  lemma EntryReadsBack(t: NumberText)
    ensures ReadAs(t, Merge(ToJson(ENTRY), EMPTY_FILE), ObjectMapKind) == Some(ENTRY)
  {
    assert Merge(ToJson(ENTRY), EMPTY_FILE) == ToJson(ENTRY);
    assert PlainMember(ENTRY.entries["k"].members["m"]) && NumbersAreDoubles(ENTRY.entries["k"].members["m"]);
    PrintDecodeWiden(t, ENTRY, ObjectMapKind);
  }

  // The override empties an object_map: the loader still has the default entry.
  lemma PartialObjectMap(t: NumberText)
    ensures
      var f, file := PlainField("a", ObjectMapKind, ENTRY), Object(map["a" := EMPTY_FILE]);
      && ValidSpec(t, [f])
      && LoaderView(t, [f], f, file) == Some(ENTRY)
      && ResolvedValue(t, f, Normalize([f], file)) == ObjectMap(map[])
  {
    var f, file := PlainField("a", ObjectMapKind, ENTRY), Object(map["a" := EMPTY_FILE]);
    PathOfA();
    SoleFieldIsValid(t, f);
    NothingToNormalize(f, file);
    assert Lookup(file, f.Path()) == Some(EMPTY_FILE);
    LoaderReadsOverride(t, [f], f, file);
    EntryReadsBack(t);
    EditorShowsEmptyMap(t, f, file);
  }

  lemma EditorShowsEmptyMap(t: NumberText, f: Field, overrides: Json)
    requires f.kind == ObjectMapKind && Lookup(overrides, f.Path()) == Some(EMPTY_FILE)
    ensures ResolvedValue(t, f, overrides) == ObjectMap(map[])
  {
    assert Decode(EMPTY_FILE) == Some(ObjectMap(map[]));
  }

  const NESTED := Item(map["m" := ObjectMap(map[])])

  // A default item with a member that is itself a map of items: the loader cannot read it back.
  lemma NestedItemDefault(t: NumberText)
    ensures
      var f := PlainField("a", ObjectArrayKind, ObjectArray([NESTED]));
      && ValidSpec(t, [f])
      && LoaderView(t, [f], f, EMPTY_FILE) != Some(ResolvedValue(t, f, Normalize([f], EMPTY_FILE)))
  {
    var default := ObjectArray([NESTED]);
    var f := PlainField("a", ObjectArrayKind, default);
    SoleFieldIsValid(t, f);
    assert !PlainMember(NESTED.members["m"]);
    assert !PlainItem(default.items[0]);
    assert NumbersAreDoubles(NESTED.members["m"]);
    DefaultDiffers(t, f);
  }

  // A number default that is not finite, which a contract may declare with an infinite bound:
  // it is printed as null, and the loader cannot read that.
  lemma InfiniteDefault(t: NumberText)
    ensures
      var f := PlainField("a", NumberKind, Numeric(NonFinite));
      && ValidSpec(t, [f])
      && LoaderView(t, [f], f, EMPTY_FILE) != Some(ResolvedValue(t, f, Normalize([f], EMPTY_FILE)))
  {
    var f := PlainField("a", NumberKind, Numeric(NonFinite));
    SoleFieldIsValid(t, f);
    DefaultDiffers(t, f);
  }

  // Without any override the views differ for every default that is not printable.
  lemma DefaultDiffers(t: NumberText, f: Field)
    requires ValidSpec(t, [f]) && f.id == "a" && f.configKey.None? && f.HasStoredValue() && f.declared.Some?
    requires NumbersAreDoubles(DefaultValue(t, f)) && !Printable(DefaultValue(t, f))
    ensures LoaderView(t, [f], f, EMPTY_FILE) != Some(ResolvedValue(t, f, Normalize([f], EMPTY_FILE)))
  {
    PathOfA();
    FileReadsAlike(t, [f], f, EMPTY_FILE);
    assert Lookup(EMPTY_FILE, f.Path()) == None;
  }

  // ----- Spelling -----

  const DARK := Field("a", SelectKind, None, Some(Text("dark")), ["dark"], false, false)

  lemma DarkInCapitals()
    ensures CanonicalKey("DARK") == "dark" && CanonicalKey("dark") == "dark"
  {
    OneWord("DARK");
    OneWord("dark");
    assert MapChars(AsciiLower, "DARK") == "dark";
    KeyMapsToItself("dark");
  }

  lemma DarkIsCorrected()
    ensures CanonicalOption(DARK.options, "DARK") == Some("dark")
  {
    DarkInCapitals();
    assert DARK.options[..0] == [];
    assert FlatMap(SameKeyAs("dark"), DARK.options) == FlatMap(SameKeyAs("dark"), []) + ["dark"];
  }

  // The option is written in capitals: the loader hands it over so, the editor corrects it.
  lemma CapitalOption(t: NumberText)
    ensures
      var file := Object(map["a" := Str("DARK")]);
      && ValidSpec(t, [DARK])
      && LoaderView(t, [DARK], DARK, file) == Some(Text("DARK"))
      && ResolvedValue(t, DARK, Normalize([DARK], file)) == Text("dark")
  {
    var file := Object(map["a" := Str("DARK")]);
    PathOfA();
    SoleFieldIsValid(t, DARK);
    DarkIsCorrected();
    assert Lookup(file, DARK.Path()) == Some(Str("DARK"));
    LoaderReadsRawSpelling(t, [DARK], DARK, file);
    assert DARK.options == ["dark"];
  }

  // ----- Negative zero -----

  // A text field overridden by -0.0, where zero is written "0" and its negative "-0".
  lemma NegativeZeroText(t: NumberText)
    requires t.show(Finite(0.0)) == "0"
    ensures
      var f, file := PlainField("a", StringKind, Text("x")), Object(map["a" := Num(Float(0.0))]);
      && ValidSpec(t, [f])
      && LoaderView(t, [f], f, file) == Some(Text("0"))
      && EditorView(t, "-0", f, Normalize([f], file), true) == Text("-0")
  {
    var f, file := PlainField("a", StringKind, Text("x")), Object(map["a" := Num(Float(0.0))]);
    PathOfA();
    SoleFieldIsValid(t, f);
    assert Lookup(file, f.Path()) == Some(Num(Float(0.0)));
    assert IsDouble(0.0);
    NegativeZeroReadsAlike(t, "0", [f], f, file);
  }
}
