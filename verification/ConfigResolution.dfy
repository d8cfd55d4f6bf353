/**
 The settings editor resolves one value per field from the normalised overrides; the loader
 decodes the document merged from defaults and overrides. The two views are compared here.
 */
module ConfigResolution {
  import opened Common
  import opened JsonValues
  import opened ConfigSpecs
  import opened ConfigKeys
  import opened ConfigDefaults
  import opened FieldValues
  import opened Merging
  import opened SelectNormalization
  import opened Strings

  datatype Resolved = Resolved(id: string, key: string, default: FieldValue, value: FieldValue)

  datatype ResolveError = InvalidSpec | OverridesNotAnObject

  function ResolvedDefault(t: NumberText, f: Field): FieldValue {
    var declared := if f.declared.Some? then f.declared.value
                    else if f.kind == NumberKind then Numeric(Finite(0.0))
                    else Text("");
    Widen(t, declared, f.kind)
  }

  // An override that cannot be decoded is reported to no caller and falls back to the default.
  function ResolvedValue(t: NumberText, f: Field, overrides: Json): FieldValue {
    var default := ResolvedDefault(t, f);
    if !f.HasStoredValue() then default
    else
      var raw := Lookup(overrides, f.Path());
      if raw.None? then Widen(t, default, f.kind)
      else
        var decoded := Decode(raw.value);
        Widen(t, if decoded.Some? then decoded.value else default, f.kind)
  }

  function Resolve(t: NumberText, f: Field, overrides: Json): Resolved {
    Resolved(f.id, f.Key(), ResolvedDefault(t, f), ResolvedValue(t, f, overrides))
  }

  predicate DefaultAccepted(t: NumberText, f: Field) {
    if f.declared.Some? then MatchesKind(DefaultValue(t, f), f.kind)
    else f.kind in {ActionKind, ListKind, StatusKind, QrCodeKind, GamepadKind, DisplayLayoutKind}
  }

  // The part of spec validation that bears on stored values.
  ghost predicate ValidSpec(t: NumberText, spec: Spec) {
    && Distinct(spec)
    && PathsApart(StoredFields(spec))
    && forall f :: f in spec ==> DefaultAccepted(t, f)
  }

  method ValidateSpec(t: NumberText, spec: Spec) returns (valid: bool)
    requires Distinct(spec)
    ensures valid <==> ValidSpec(t, spec)
  {
    var collisions := ValidateKeyCollisions(spec);
    valid := true;
    for n := 0 to |spec|
      invariant valid <==> forall i :: 0 <= i < n ==> DefaultAccepted(t, spec[i])
    {
      valid := valid && DefaultAccepted(t, spec[n]);
    }
    assert valid <==> forall f :: f in spec ==> DefaultAccepted(t, f);
    valid := valid && collisions == [];
  }

  method ResolveFields(t: NumberText, spec: Spec, normalized: Json) returns (fields: seq<Resolved>)
    ensures fields == ResolvedFields(t, spec, normalized)
  {
    fields := [];
    for n := 0 to |spec|
      invariant fields == ResolvedFields(t, spec, normalized)[..n]
    {
      fields := fields + [Resolve(t, spec[n], normalized)];
    }
  }

  method ResolveConfig(t: NumberText, spec: Spec, overrides: Json) returns (r: Result<seq<Resolved>, ResolveError>)
    requires Distinct(spec)
    ensures r == ResolveAll(t, spec, overrides)
  {
    var normalized := NormalizeConfig(spec, overrides);
    var valid := ValidateSpec(t, spec);
    if !valid {
      return Err(InvalidSpec);
    }
    if !normalized.Null? && !normalized.Object? {
      return Err(OverridesNotAnObject);
    }
    var fields := ResolveFields(t, spec, normalized);
    r := Ok(fields);
  }

  function ResolvedFields(t: NumberText, spec: Spec, normalized: Json): seq<Resolved> {
    seq(|spec|, i requires 0 <= i < |spec| => Resolve(t, spec[i], normalized))
  }

  ghost function ResolveAll(t: NumberText, spec: Spec, overrides: Json): Result<seq<Resolved>, ResolveError> {
    var normalized := Normalize(spec, overrides);
    if !ValidSpec(t, spec) then Err(InvalidSpec)
    else if !normalized.Null? && !normalized.Object? then Err(OverridesNotAnObject)
    else Ok(ResolvedFields(t, spec, normalized))
  }

  // Resolution fails for a spec whose stored paths are not apart or whose defaults are not
  // accepted, then for overrides that are neither null nor an object; otherwise it gives each
  // field in order, with its default and its value under the normalised overrides.
  lemma ResolutionIs(t: NumberText, spec: Spec, overrides: Json)
    requires Distinct(spec)
    ensures
      var valid := SpecPathsApart(spec) && forall f :: f in spec ==> DefaultAccepted(t, f);
      var result := ResolveAll(t, spec, overrides);
      && (result == Err(InvalidSpec) <==> !valid)
      && (result == Err(OverridesNotAnObject) <==> valid && overrides != Null && !overrides.Object?)
      && (result.Ok? ==>
            && |result.value| == |spec|
            && forall i :: 0 <= i < |spec| ==>
                 result.value[i] == Resolved(spec[i].id, spec[i].Key(), ResolvedDefault(t, spec[i]),
                                             ResolvedValue(t, spec[i], Normalize(spec, overrides))))
  {
    AcceptedIffPathsApart(spec);
    NormalizedShape(spec, overrides);
  }

  lemma NormalizedShape(spec: Spec, overrides: Json)
    ensures Normalize(spec, overrides).Object? <==> overrides.Object?
    ensures Normalize(spec, overrides).Null? <==> overrides.Null?
  {
    NormalizeElsewhere(spec, overrides, []);
  }

  ghost predicate KeysDistinct(spec: Spec) {
    forall i, j :: 0 <= i < j < |spec| ==> spec[i].Key() != spec[j].Key()
  }

  // Resolving a normalised configuration is resolving the original one.
  lemma ResolvingNormalizedConfig(t: NumberText, spec: Spec, overrides: Json)
    requires KeysDistinct(spec)
    ensures ResolveAll(t, spec, Normalize(spec, overrides)) == ResolveAll(t, spec, overrides)
  {
    forall i, j | 0 <= i < j < |spec|
      ensures spec[i].Path() != spec[j].Path()
    {
      SplitIsInjective(spec[i].Key(), spec[j].Key(), '.');
    }
    NormalizeIsIdempotent(spec, overrides);
  }

  // ----- The two views of one field -----

  // The loader's document: overrides merged over defaults, then whole floats rewritten.
  function LoaderDocument(t: NumberText, spec: Spec, overrides: Json): Json {
    Canonicalize(Merge(Defaults(t, spec), overrides))
  }

  function LoaderView(t: NumberText, spec: Spec, f: Field, overrides: Json): Option<FieldValue> {
    var found := Lookup(LoaderDocument(t, spec, overrides), f.Path());
    if found.Some? then ReadAs(t, found.value, f.kind) else None
  }

  // Rewriting whole floats does not change what a decoder reads.
  lemma CanonicalMemberDecodesAlike(j: Json)
    requires HoldsDoubles(j)
    ensures DecodeMember(Canonicalize(j)) == DecodeMember(j)
  {
    match j
    case Num(n) =>
      if n.Float? && FitsI64AsDouble(n.decimal) {
        SaturatedTokenReadsBack(n.decimal);
      }
    case Array(items) => CanonicalStringsDecodeAlike(items);
    case _ =>
  }

  lemma CanonicalStringsDecodeAlike(items: seq<Json>)
    ensures DecodeStrings(Canonicalize(Array(items)).items) == DecodeStrings(items)
  {
    var rewritten := Canonicalize(Array(items)).items;
    assert forall i :: 0 <= i < |items| ==> rewritten[i] == Canonicalize(items[i]);
    assert AllStrings(rewritten) <==> AllStrings(items);
    if AllStrings(items) {
      assert DecodeStrings(rewritten).value == DecodeStrings(items).value;
    }
  }

  lemma CanonicalItemDecodesAlike(j: Json)
    requires HoldsDoubles(j)
    ensures DecodeItem(Canonicalize(j)) == DecodeItem(j)
  {
    if j.Object? {
      var rewritten := Canonicalize(j).fields;
      forall k | k in j.fields
        ensures DecodeMember(rewritten[k]) == DecodeMember(j.fields[k])
      {
        CanonicalMemberDecodesAlike(j.fields[k]);
      }
      if DecodeItem(j).Some? {
        assert DecodeItem(Canonicalize(j)).value.members == DecodeItem(j).value.members;
      }
    }
  }

  lemma CanonicalArrayDecodesAlike(items: seq<Json>)
    requires forall i :: 0 <= i < |items| ==> HoldsDoubles(items[i])
    ensures Decode(Canonicalize(Array(items))) == Decode(Array(items))
  {
    var rewritten := Canonicalize(Array(items)).items;
    CanonicalStringsDecodeAlike(items);
    forall i | 0 <= i < |items|
      ensures DecodeItem(rewritten[i]) == DecodeItem(items[i])
    {
      CanonicalItemDecodesAlike(items[i]);
    }
    if DecodeItems(items).Some? {
      assert DecodeItems(rewritten).value == DecodeItems(items).value;
    }
  }

  lemma CanonicalObjectDecodesAlike(fields: map<string, Json>)
    requires forall k :: k in fields ==> HoldsDoubles(fields[k])
    ensures Decode(Canonicalize(Object(fields))) == Decode(Object(fields))
  {
    var rewritten := Canonicalize(Object(fields)).fields;
    forall k | k in fields
      ensures DecodeItem(rewritten[k]) == DecodeItem(fields[k])
    {
      CanonicalItemDecodesAlike(fields[k]);
    }
    if DecodeEntries(fields).Some? {
      assert DecodeEntries(rewritten).value == DecodeEntries(fields).value;
    }
  }

  lemma CanonicalDecodesAlike(j: Json)
    requires HoldsDoubles(j)
    ensures Decode(Canonicalize(j)) == Decode(j)
  {
    match j
    case Array(items) => CanonicalArrayDecodesAlike(items);
    case Object(fields) => CanonicalObjectDecodesAlike(fields);
    case _ => CanonicalMemberDecodesAlike(j);
  }

  // What is printed holds no whole float, and a number that is not finite is printed as null.
  lemma PrintedIsCanonical(v: FieldValue)
    ensures Canonicalize(ToJson(v)) == ToJson(v)
    ensures ToJson(Numeric(NonFinite)) == Null
    decreases v
  {
    match v
    case ObjectArray(items) =>
      forall i | 0 <= i < |items|
        ensures Canonicalize(ItemToJson(items[i])) == ItemToJson(items[i])
      {
        PrintedItemIsCanonical(items[i]);
      }
      assert Canonicalize(ToJson(v)).items == ToJson(v).items;
    case ObjectMap(entries) =>
      forall k | k in entries
        ensures Canonicalize(ItemToJson(entries[k])) == ItemToJson(entries[k])
      {
        PrintedItemIsCanonical(entries[k]);
      }
      assert Canonicalize(ToJson(v)).fields == ToJson(v).fields;
    case StringArray(strings) =>
      assert Canonicalize(ToJson(v)).items == ToJson(v).items;
    case _ =>
  }

  lemma PrintedItemIsCanonical(item: Item)
    ensures Canonicalize(ItemToJson(item)) == ItemToJson(item)
    decreases item
  {
    forall k | k in item.members
      ensures Canonicalize(ToJson(item.members[k])) == ToJson(item.members[k])
    {
      PrintedIsCanonical(item.members[k]);
    }
    assert Canonicalize(ItemToJson(item)).fields == ItemToJson(item).fields;
  }

  // The default of a field without one is zero or the empty text.
  lemma ResolvedDefaultIs(t: NumberText, f: Field)
    ensures f.declared.Some? ==> ResolvedDefault(t, f) == Widen(t, f.declared.value, f.kind)
    ensures f.declared.None? && f.kind.NumberKind? ==> ResolvedDefault(t, f) == Numeric(Finite(0.0))
    ensures f.declared.None? && !f.kind.NumberKind? ==> ResolvedDefault(t, f) == Widen(t, Text(""), f.kind)
  {
  }

  // A field shows its decoded and widened override where it stores a value and the override
  // decodes, and its default otherwise.
  lemma ResolvedValueIs(t: NumberText, f: Field, overrides: Json, v: FieldValue)
    ensures f.HasStoredValue() && Lookup(overrides, f.Path()).Some? && Reads(Lookup(overrides, f.Path()).value, v) ==>
            ResolvedValue(t, f, overrides) == Widen(t, v, f.kind)
    ensures
      || !f.HasStoredValue() || Lookup(overrides, f.Path()).None?
      || (forall w :: !Reads(Lookup(overrides, f.Path()).value, w)) ==>
      ResolvedValue(t, f, overrides) == ResolvedDefault(t, f)
  {
    WidenIsIdempotent(t, if f.declared.Some? then f.declared.value else if f.kind == NumberKind then Numeric(Finite(0.0)) else Text(""), f.kind);
    if Lookup(overrides, f.Path()).Some? {
      var raw := Lookup(overrides, f.Path()).value;
      DecodeIff(raw, v);
      if Decode(raw).Some? {
        DecodeIff(raw, Decode(raw).value);
      }
    }
  }

  // A default is accepted when it is of its kind; only kinds without a stored value may go without.
  lemma DefaultAcceptedIff(t: NumberText, f: Field)
    ensures f.declared.Some? ==> (DefaultAccepted(t, f) <==> MatchesKind(Widen(t, f.declared.value, f.kind), f.kind))
    ensures f.declared.None? ==> (DefaultAccepted(t, f) <==>
      || f.kind.ActionKind? || f.kind.ListKind? || f.kind.StatusKind?
      || f.kind.QrCodeKind? || f.kind.GamepadKind? || f.kind.DisplayLayoutKind?)
  {
  }

  lemma {:induction false} FoundHoldsDoubles(j: Json, path: seq<string>)
    requires HoldsDoubles(j) && Lookup(j, path).Some?
    ensures HoldsDoubles(Lookup(j, path).value)
  {
    if path != [] {
      FoundHoldsDoubles(j.fields[path[0]], path[1..]);
    }
  }

  lemma {:induction false} ReplacedHoldsDoubles(j: Json, path: seq<string>, value: Json)
    requires HoldsDoubles(j) && HoldsDoubles(value) && Lookup(j, path).Some?
    ensures HoldsDoubles(ReplaceAt(j, path, value))
    decreases path
  {
    if path != [] {
      ReplacedHoldsDoubles(j.fields[path[0]], path[1..], value);
    }
  }

  lemma {:induction false} NormalizedHoldsDoubles(spec: Spec, j: Json)
    requires HoldsDoubles(j)
    ensures HoldsDoubles(Normalize(spec, j))
  {
    if spec != [] {
      var before, f := Normalize(spec[..|spec| - 1], j), spec[|spec| - 1];
      NormalizedHoldsDoubles(spec[..|spec| - 1], j);
      var found := Lookup(before, f.Path());
      if found.Some? {
        FoundHoldsDoubles(before, f.Path());
        ReplacedHoldsDoubles(before, f.Path(), CanonicalValue(f, found.value));
      }
    }
  }

  // Without an override the loader reads the printed default.
  lemma LoaderReadsDefault(t: NumberText, spec: Spec, f: Field, overrides: Json)
    requires ValidSpec(t, spec) && f in spec && f.HasStoredValue() && f.declared.Some?
    requires NumbersAreDoubles(DefaultValue(t, f))
    requires !Blocked(overrides, f.Path()) && Lookup(overrides, f.Path()).None?
    ensures LoaderView(t, spec, f, overrides) == ReadAs(t, ToJson(DefaultValue(t, f)), f.kind)
  {
    var merged := Merge(Defaults(t, spec), overrides);
    AcceptedDefaultsReadBack(t, spec, f);
    MergeLookup(Defaults(t, spec), overrides, f.Path());
    CanonicalizeLookup(merged, f.Path());
    PrintedHoldsDoubles(DefaultValue(t, f));
    CanonicalDecodesAlike(ToJson(DefaultValue(t, f)));
  }

  lemma {:induction false} PrintedHoldsDoubles(v: FieldValue)
    requires NumbersAreDoubles(v)
    ensures HoldsDoubles(ToJson(v))
  {
    match v
    case ObjectArray(items) =>
      forall i | 0 <= i < |items|
        ensures HoldsDoubles(ToJson(v).items[i])
      {
        forall k | k in items[i].members
          ensures HoldsDoubles(ToJson(items[i].members[k]))
        {
          PrintedHoldsDoubles(items[i].members[k]);
        }
        assert ToJson(v).items[i] == ItemToJson(items[i]);
      }
    case ObjectMap(entries) =>
      forall e | e in entries
        ensures HoldsDoubles(ToJson(v).fields[e])
      {
        forall k | k in entries[e].members
          ensures HoldsDoubles(ToJson(entries[e].members[k]))
        {
          PrintedHoldsDoubles(entries[e].members[k]);
        }
        assert ToJson(v).fields[e] == ItemToJson(entries[e]);
      }
    case StringArray(strings) =>
      assert forall i :: 0 <= i < |strings| ==> ToJson(v).items[i] == Str(strings[i]);
    case _ =>
  }

  // An object_map default is merged member by member with its override, so the editor, which
  // shows the override alone, agrees only when the override names every default member.
  predicate OverrideCovers(default: FieldValue, raw: Json) {
    default.ObjectMap? && raw.Object? ==>
      forall e :: e in default.entries ==>
        e in raw.fields && raw.fields[e].Object? && default.entries[e].members.Keys <= raw.fields[e].fields.Keys
  }

  lemma CoveredMerge(v: FieldValue, raw: Json)
    requires Decode(raw).Some? && OverrideCovers(v, raw)
    ensures Merge(ToJson(v), raw) == raw
  {
    if v.ObjectMap? && raw.Object? {
      forall e | e in raw.fields
        ensures Merge(ToJson(v), raw).fields[e] == raw.fields[e]
      {
        assert DecodeItem(raw.fields[e]).Some?;
        if e in v.entries {
          var default := ItemToJson(v.entries[e]);
          assert Merge(default, raw.fields[e]).fields == raw.fields[e].fields;
        }
      }
      assert Merge(ToJson(v), raw).fields == raw.fields;
    }
  }

  lemma UncoveredMerge(v: FieldValue, raw: Json)
    requires Decode(raw).Some? && !OverrideCovers(v, raw)
    ensures Decode(Merge(ToJson(v), raw)) != Decode(raw)
  {
    var merged := Merge(ToJson(v), raw);
    var e :| e in v.entries
      && !(e in raw.fields && raw.fields[e].Object? && v.entries[e].members.Keys <= raw.fields[e].fields.Keys);
    if Decode(merged).Some? && e in raw.fields {
      assert DecodeItem(raw.fields[e]).Some?;
      var k :| k in v.entries[e].members && k !in raw.fields[e].fields;
      assert merged.fields[e] == Merge(ItemToJson(v.entries[e]), raw.fields[e]);
      assert k in Decode(merged).value.entries[e].members;
      assert k !in Decode(raw).value.entries[e].members;
    } else if Decode(merged).Some? {
      assert e in Decode(merged).value.entries;
      assert e !in Decode(raw).value.entries;
    }
  }

  // With an override the loader reads the merge of the printed default and the override.
  lemma LoaderReadsOverride(t: NumberText, spec: Spec, f: Field, overrides: Json)
    requires ValidSpec(t, spec) && f in spec && f.HasStoredValue() && f.declared.Some?
    requires HoldsDoubles(overrides) && NumbersAreDoubles(DefaultValue(t, f))
    requires Lookup(overrides, f.Path()).Some?
    ensures
      var raw := Lookup(overrides, f.Path()).value;
      LoaderView(t, spec, f, overrides) == ReadAs(t, Merge(ToJson(DefaultValue(t, f)), raw), f.kind)
  {
    var merged := Merge(Defaults(t, spec), overrides);
    var raw := Lookup(overrides, f.Path()).value;
    AcceptedDefaultsReadBack(t, spec, f);
    NotBlockedBelow(overrides, f.Path());
    MergeLookup(Defaults(t, spec), overrides, f.Path());
    CanonicalizeLookup(merged, f.Path());
    FoundHoldsDoubles(overrides, f.Path());
    PrintedHoldsDoubles(DefaultValue(t, f));
    MergedHoldsDoubles(ToJson(DefaultValue(t, f)), raw);
    CanonicalDecodesAlike(Merge(ToJson(DefaultValue(t, f)), raw));
  }

  lemma {:induction false} MergedHoldsDoubles(d: Json, o: Json)
    requires HoldsDoubles(d) && HoldsDoubles(o)
    ensures HoldsDoubles(Merge(d, o))
    decreases o
  {
    if d.Object? && o.Object? {
      forall k | k in d.fields && k in o.fields
        ensures HoldsDoubles(Merge(d.fields[k], o.fields[k]))
      {
        MergedHoldsDoubles(d.fields[k], o.fields[k]);
      }
    }
  }

  // The two readings of one override agree exactly when it decodes and covers the default.
  lemma OverrideReadings(t: NumberText, default: FieldValue, raw: Json, kind: FieldKind)
    requires MatchesKind(default, kind) && Widen(t, default, kind) == default
    ensures
      ReadAs(t, Merge(ToJson(default), raw), kind) ==
        Some(Widen(t, if Decode(raw).Some? then Decode(raw).value else default, kind))
      <==> Decode(raw).Some? && OverrideCovers(default, raw)
  {
    if Decode(raw).Some? {
      if OverrideCovers(default, raw) {
        CoveredMerge(default, raw);
      } else {
        UncoveredMerge(default, raw);
      }
    } else {
      UndecodableStaysUndecodable(ToJson(default), raw);
    }
  }

  lemma UndecodableItem(d: Json, o: Json)
    requires DecodeItem(o).None?
    ensures DecodeItem(Merge(d, o)).None?
  {
    if d.Object? && o.Object? {
      var k :| k in o.fields && DecodeMember(o.fields[k]).None?;
      var member := Merge(d, o).fields[k];
      assert k in d.fields ==> member == Merge(d.fields[k], o.fields[k]);
      assert DecodeMember(member).None?;
    }
  }

  // Defaults under an undecodable override never make it decodable.
  lemma UndecodableStaysUndecodable(d: Json, o: Json)
    requires Decode(o).None?
    ensures Decode(Merge(d, o)).None?
  {
    if d.Object? && o.Object? {
      var e :| e in o.fields && DecodeItem(o.fields[e]).None?;
      var item := Merge(d, o).fields[e];
      if e in d.fields {
        UndecodableItem(d.fields[e], o.fields[e]);
        assert item == Merge(d.fields[e], o.fields[e]);
      }
      assert DecodeItem(item).None?;
    }
  }

  // Exactly when the loader sees the value the settings editor shows: no ancestor of the key
  // is overridden by a non-object, and the override decodes and covers an object_map default
  // or, without an override, the default is printable.
  lemma LoaderAgreesWithEditor(t: NumberText, spec: Spec, f: Field, original: Json)
    requires ValidSpec(t, spec) && f in spec && f.HasStoredValue() && f.declared.Some?
    requires HoldsDoubles(original) && NumbersAreDoubles(DefaultValue(t, f))
    ensures
      var overrides := Normalize(spec, original);
      var raw := Lookup(overrides, f.Path());
      LoaderView(t, spec, f, overrides) == Some(ResolvedValue(t, f, overrides)) <==>
      && !Blocked(overrides, f.Path())
      && (if raw.Some? then Decode(raw.value).Some? && OverrideCovers(DefaultValue(t, f), raw.value)
          else Printable(DefaultValue(t, f)))
  {
    var overrides := Normalize(spec, original);
    var raw := Lookup(overrides, f.Path());
    WidenIsIdempotent(t, f.declared.value, f.kind);
    NormalizedHoldsDoubles(spec, original);
    if raw.Some? {
      NotBlockedBelow(overrides, f.Path());
      LoaderReadsOverride(t, spec, f, overrides);
      OverrideReadings(t, DefaultValue(t, f), raw.value, f.kind);
    } else if Blocked(overrides, f.Path()) {
      MergeLookup(Defaults(t, spec), overrides, f.Path());
      CanonicalizeLookup(Merge(Defaults(t, spec), overrides), f.Path());
    } else {
      LoaderReadsDefault(t, spec, f, overrides);
      PrintDecodeWiden(t, DefaultValue(t, f), f.kind);
    }
  }
}
