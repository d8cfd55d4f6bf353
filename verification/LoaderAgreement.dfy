/**
 The loader reads the configuration file as it stands; the settings editor first rewrites
 select values to declared options. This is exactly when the two show the same value.
 */
module LoaderAgreement {
  import opened Common
  import opened JsonValues
  import opened ConfigSpecs
  import opened ConfigKeys
  import opened FieldValues
  import opened DefaultsTree
  import opened ConfigDefaults
  import opened Merging
  import opened SelectNormalization
  import opened ConfigResolution

  lemma {:induction false} ReplacedElsewhere(j: Json, p: seq<string>, value: Json, q: seq<string>)
    requires Lookup(j, p).Some? && p != [] && q != [] && Apart(p, q)
    ensures Lookup(ReplaceAt(j, p, value), q) == Lookup(j, q)
    ensures Blocked(ReplaceAt(j, p, value), q) == Blocked(j, q)
    decreases p
  {
    if p[0] == q[0] {
      ApartTails(p, q);
      ReplacedElsewhere(j.fields[p[0]], p[1..], value, q[1..]);
    }
  }

  lemma {:induction false} ReplacedHere(j: Json, path: seq<string>, value: Json)
    requires Lookup(j, path).Some?
    ensures Lookup(ReplaceAt(j, path, value), path) == Some(value)
    ensures Blocked(ReplaceAt(j, path, value), path) == Blocked(j, path)
    decreases path
  {
    if path != [] {
      ReplacedHere(j.fields[path[0]], path[1..], value);
    }
  }

  // No other select field lies on the way to the field, or below it.
  ghost predicate SelectsApartFrom(spec: Spec, f: Field) {
    forall g :: g in spec && g != f && g.IsStaticSelect() ==> Apart(g.Path(), f.Path())
  }

  // Normalising gives a select field its declared option, any other field what it had.
  lemma {:induction false} NormalizedLookup(spec: Spec, j: Json, f: Field)
    requires SelectsApartFrom(spec, f)
    ensures Blocked(Normalize(spec, j), f.Path()) == Blocked(j, f.Path())
    ensures Lookup(Normalize(spec, j), f.Path()) ==
            (var found := Lookup(j, f.Path());
             if found.Some? && f in spec && f.IsStaticSelect() then Some(CanonicalValue(f, found.value)) else found)
  {
    if spec != [] {
      var init, last := spec[..|spec| - 1], spec[|spec| - 1];
      assert spec == init + [last];
      NormalizedLookup(init, j, f);
      StepLookup(Normalize(init, j), last, f);
      if Lookup(j, f.Path()).Some? {
        CanonicalValueIsIdempotent(f, Lookup(j, f.Path()).value);
      }
    }
  }

  lemma StepLookup(j: Json, g: Field, f: Field)
    requires g != f && g.IsStaticSelect() ==> Apart(g.Path(), f.Path())
    ensures Blocked(NormalizeStep(j, g), f.Path()) == Blocked(j, f.Path())
    ensures Lookup(NormalizeStep(j, g), f.Path()) ==
            (var found := Lookup(j, f.Path());
             if found.Some? && g == f && f.IsStaticSelect() then Some(CanonicalValue(f, found.value)) else found)
  {
    var found := Lookup(j, g.Path());
    if g.IsStaticSelect() && found.Some? {
      if g == f {
        ReplacedHere(j, f.Path(), CanonicalValue(f, found.value));
      } else {
        ReplacedElsewhere(j, g.Path(), CanonicalValue(g, found.value), f.Path());
      }
    }
  }

  // The loader sees a field only through the override at its path and the objects above it.
  lemma LoaderSeesOnlyThePath(t: NumberText, spec: Spec, f: Field, a: Json, b: Json)
    requires Blocked(a, f.Path()) == Blocked(b, f.Path()) && Lookup(a, f.Path()) == Lookup(b, f.Path())
    ensures LoaderView(t, spec, f, a) == LoaderView(t, spec, f, b)
  {
    MergeLookup(Defaults(t, spec), a, f.Path());
    MergeLookup(Defaults(t, spec), b, f.Path());
    CanonicalizeLookup(Merge(Defaults(t, spec), a), f.Path());
    CanonicalizeLookup(Merge(Defaults(t, spec), b), f.Path());
  }

  // The override is spelled as the editor would spell it.
  predicate SpelledCanonically(f: Field, raw: Json) {
    f.IsStaticSelect() ==> CanonicalValue(f, raw) == raw
  }

  // On one and the same file the loader sees what the editor shows exactly when no ancestor of
  // the key is overridden by a non-object, and the override decodes, covers an object_map
  // default and is spelled as a declared option, or, without an override, the default is printable.
  lemma FileReadsAlike(t: NumberText, spec: Spec, f: Field, file: Json)
    requires ValidSpec(t, spec) && f in spec && f.HasStoredValue() && f.declared.Some?
    requires HoldsDoubles(file) && NumbersAreDoubles(DefaultValue(t, f))
    ensures
      var raw := Lookup(file, f.Path());
      LoaderView(t, spec, f, file) == Some(ResolvedValue(t, f, Normalize(spec, file))) <==>
      && !Blocked(file, f.Path())
      && (if raw.Some? then
            Decode(raw.value).Some? && OverrideCovers(DefaultValue(t, f), raw.value) && SpelledCanonically(f, raw.value)
          else Printable(DefaultValue(t, f)))
  {
    var raw := Lookup(file, f.Path());
    AcceptedIffPathsApart(spec);
    NormalizedLookup(spec, file, f);
    if raw.Some? && !SpelledCanonically(f, raw.value) {
      LoaderReadsRawSpelling(t, spec, f, file);
    } else {
      LoaderSeesOnlyThePath(t, spec, f, file, Normalize(spec, file));
      LoaderAgreesWithEditor(t, spec, f, file);
    }
  }

  // Where the editor corrects the spelling of an option, the loader hands over the text as written.
  lemma LoaderReadsRawSpelling(t: NumberText, spec: Spec, f: Field, file: Json)
    requires ValidSpec(t, spec) && f in spec && f.HasStoredValue() && f.declared.Some?
    requires HoldsDoubles(file) && NumbersAreDoubles(DefaultValue(t, f))
    requires Lookup(file, f.Path()).Some? && !SpelledCanonically(f, Lookup(file, f.Path()).value)
    ensures Lookup(file, f.Path()).value.Str?
    ensures LoaderView(t, spec, f, file) == Some(Text(Lookup(file, f.Path()).value.text))
    ensures ResolvedValue(t, f, Normalize(spec, file)).Text?
    ensures ResolvedValue(t, f, Normalize(spec, file)).text in f.options
    ensures LoaderView(t, spec, f, file) != Some(ResolvedValue(t, f, Normalize(spec, file)))
  {
    AcceptedIffPathsApart(spec);
    NormalizedLookup(spec, file, f);
    SpellingIsCorrected(f, Lookup(file, f.Path()).value);
    EditorShowsText(t, f, Normalize(spec, file), CanonicalValue(f, Lookup(file, f.Path()).value));
    LoaderReadsOverride(t, spec, f, file);
    TextReadsAsWritten(t, DefaultValue(t, f), Lookup(file, f.Path()).value);
  }

  lemma EditorShowsText(t: NumberText, f: Field, overrides: Json, raw: Json)
    requires f.kind == SelectKind && Lookup(overrides, f.Path()) == Some(raw) && raw.Str?
    ensures ResolvedValue(t, f, overrides) == Text(raw.text)
  {
  }

  lemma SpellingIsCorrected(f: Field, raw: Json)
    requires !SpelledCanonically(f, raw)
    ensures f.kind == SelectKind && raw.Str?
    ensures CanonicalValue(f, raw).Str? && CanonicalValue(f, raw).text in f.options
    ensures CanonicalValue(f, raw) != raw
  {
  }

  lemma TextReadsAsWritten(t: NumberText, default: FieldValue, raw: Json)
    requires raw.Str?
    ensures ReadAs(t, Merge(ToJson(default), raw), SelectKind) == Some(Text(raw.text))
  {
  }

  // ----- Negative zero -----

  // The kinds whose values are widened to text.
  predicate ShownAsText(kind: FieldKind) {
    kind in {StringKind, SelectKind, ColorKind}
  }

  // What the editor shows when `negativeZero` tells that the override at the key is the token
  // -0.0. As a number that token is zero; widened to text it is shown as `minus`.
  function EditorView(t: NumberText, minus: string, f: Field, overrides: Json, negativeZero: bool): FieldValue {
    if negativeZero && f.HasStoredValue() && ShownAsText(f.kind) then Text(minus) else ResolvedValue(t, f, overrides)
  }

  // With a negative zero at the key the loader, whose document has the token rewritten to 0,
  // agrees with the editor if and only if the field is not shown as text, or both zeros are
  // written alike.
  lemma NegativeZeroReadsAlike(t: NumberText, minus: string, spec: Spec, f: Field, file: Json)
    requires ValidSpec(t, spec) && f in spec && f.HasStoredValue() && f.declared.Some?
    requires HoldsDoubles(file) && NumbersAreDoubles(DefaultValue(t, f))
    requires Lookup(file, f.Path()) == Some(Num(Float(0.0)))
    ensures
      LoaderView(t, spec, f, file) == Some(EditorView(t, minus, f, Normalize(spec, file), true)) <==>
      (ShownAsText(f.kind) ==> minus == t.show(Finite(0.0)))
  {
    FileReadsAlike(t, spec, f, file);
    NotBlockedBelow(file, f.Path());
    AcceptedIffPathsApart(spec);
    NormalizedLookup(spec, file, f);
    ZeroIsShown(t, f, Normalize(spec, file));
  }

  lemma ZeroIsShown(t: NumberText, f: Field, overrides: Json)
    requires f.HasStoredValue() && Lookup(overrides, f.Path()) == Some(Num(Float(0.0)))
    ensures Decode(Num(Float(0.0))) == Some(Numeric(Finite(0.0)))
    ensures ShownAsText(f.kind) ==> ResolvedValue(t, f, overrides) == Text(t.show(Finite(0.0)))
  {
  }
}
