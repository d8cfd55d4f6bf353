/** Rewriting select overrides to the spelling of a declared option. */
module SelectNormalization {
  import opened Common
  import opened JsonValues
  import opened ConfigSpecs
  import opened Strings
  import opened Folds

  function Dashed(c: char): char {
    if c == '_' then '-' else c
  }

  // Words joined by dashes, in ASCII lower case, with underscores as dashes.
  function CanonicalKey(value: string): string {
    MapChars(Dashed, MapChars(AsciiLower, Join(Words(value), "-")))
  }

  // The characters of a canonical key.
  predicate KeyChar(c: char) {
    !IsWhitespace(c) && c != '_' && !('A' <= c <= 'Z')
  }

  // A canonical key has only key characters, and is its own canonical key: spellings that
  // differ in case, in spacing, or in dashes for underscores share it.
  lemma CanonicalKeyIsCanonical(value: string)
    ensures forall i :: 0 <= i < |CanonicalKey(value)| ==> KeyChar(CanonicalKey(value)[i])
    ensures CanonicalKey(CanonicalKey(value)) == CanonicalKey(value)
  {
    var joined, key := Join(Words(value), "-"), CanonicalKey(value);
    WordsHaveNoWhitespace(value);
    JoinedHasNoWhitespace(Words(value));
    forall i | 0 <= i < |key|
      ensures KeyChar(key[i])
    {
      assert !IsWhitespace(joined[i]);
      var lower := AsciiLower(joined[i]);
      assert MapChars(AsciiLower, joined)[i] == lower;
      assert key[i] == if lower == '_' then '-' else lower;
    }
    OneWord(key);
    KeyMapsToItself(key);
  }

  lemma KeyMapsToItself(key: string)
    requires forall i :: 0 <= i < |key| ==> KeyChar(key[i])
    ensures MapChars(AsciiLower, key) == key
    ensures MapChars(Dashed, key) == key
  {
  }

  lemma {:induction false} WordsHaveNoWhitespace(s: string)
    ensures forall w, i :: w in Words(s) && 0 <= i < |w| ==> !IsWhitespace(w[i])
  {
    if s != "" {
      WordsHaveNoWhitespace(s[1..]);
    }
  }

  lemma {:induction false} JoinedHasNoWhitespace(words: seq<string>)
    requires forall w, i :: w in words && 0 <= i < |w| ==> !IsWhitespace(w[i])
    ensures forall i :: 0 <= i < |Join(words, "-")| ==> !IsWhitespace(Join(words, "-")[i])
  {
    if |words| == 1 {
      assert words[0] in words;
    } else if |words| > 1 {
      assert words[0] in words;
      assert forall w :: w in words[1..] ==> w in words;
      JoinedHasNoWhitespace(words[1..]);
    }
  }

  lemma {:induction false} OneWord(s: string)
    requires forall i :: 0 <= i < |s| ==> !IsWhitespace(s[i])
    ensures Join(Words(s), "-") == s
    ensures s != "" ==> Words(s) == [s]
  {
    if |s| == 1 {
      assert Words(s[1..]) == [];
      assert Words(s) == [[s[0]]];
    } else if |s| > 1 {
      OneWord(s[1..]);
      assert [s[0]] + s[1..] == s;
    }
  }

  // Words are the pieces between whitespace: none of nothing, one of a text without whitespace,
  // and those of both sides of any whitespace.
  lemma {:induction false} WordsAround(a: string, space: char, b: string)
    requires IsWhitespace(space)
    ensures Words(a + [space] + b) == Words(a) + Words(b)
  {
    if a == "" {
      assert [space] + b == a + [space] + b && ([space] + b)[1..] == b;
    } else {
      assert (a + [space] + b)[1..] == a[1..] + [space] + b;
      WordsAround(a[1..], space, b);
      if |a| > 1 && !IsWhitespace(a[0]) && !IsWhitespace(a[1]) {
        WordsOfWord(a[1..]);
        WordGrows(a[0], Words(a[1..]), Words(b));
      } else if !IsWhitespace(a[0]) {
        assert |a| == 1 ==> (a + [space] + b)[1] == space;
        assert [[a[0]]] + (Words(a[1..]) + Words(b)) == [[a[0]]] + Words(a[1..]) + Words(b);
      }
    }
  }

  lemma WordGrows(c: char, first: seq<string>, more: seq<string>)
    requires first != []
    ensures [[c] + (first + more)[0]] + (first + more)[1..] == [[c] + first[0]] + first[1..] + more
  {
  }

  lemma WordsOfWord(s: string)
    requires s != "" && !IsWhitespace(s[0])
    ensures Words(s) != []
  {
  }

  // The key of a text without whitespace, character by character: capitals in lower case,
  // underscores as dashes.
  lemma KeyOfWord(s: string)
    requires forall i :: 0 <= i < |s| ==> !IsWhitespace(s[i])
    ensures |CanonicalKey(s)| == |s|
    ensures forall i :: 0 <= i < |s| ==>
      CanonicalKey(s)[i] ==
        if 'A' <= s[i] <= 'Z' then s[i] + (32 as char) else if s[i] == '_' then '-' else s[i]
  {
    OneWord(s);
  }

  // The key of two texts around whitespace is their keys with a dash between them; whitespace at
  // either end is dropped.
  lemma KeyAroundSpace(a: string, space: char, b: string)
    requires IsWhitespace(space)
    ensures CanonicalKey(a + [space] + b) ==
      if Words(a) == [] then CanonicalKey(b) else if Words(b) == [] then CanonicalKey(a)
      else CanonicalKey(a) + "-" + CanonicalKey(b)
  {
    WordsAround(a, space, b);
    if Words(a) == [] {
      assert Words(a) + Words(b) == Words(b);
    } else if Words(b) == [] {
      assert Words(a) + Words(b) == Words(a);
    } else {
      JoinAppends(Words(a), Words(b), "-");
      MapsAround(Join(Words(a), "-"), "-", Join(Words(b), "-"));
    }
  }

  lemma MapsAround(a: string, dash: string, b: string)
    requires dash == "-"
    ensures MapChars(Dashed, MapChars(AsciiLower, a + dash + b)) ==
            MapChars(Dashed, MapChars(AsciiLower, a)) + dash + MapChars(Dashed, MapChars(AsciiLower, b))
  {
  }

  // White space as Unicode has it.
  lemma WhitespaceIff(c: char)
    ensures IsWhitespace(c) <==>
      || 9 <= c as int <= 13 || c as int in {32, 133, 160, 5760, 8232, 8233, 8239, 8287, 12288}
      || 8192 <= c as int <= 8202
  {
  }

  function SameKeyAs(key: string): string -> seq<string> {
    (option: string) => if CanonicalKey(option) == key then [option] else []
  }

  // The option itself, or else the only option with the same canonical key.
  function CanonicalOption(options: seq<string>, selected: string): (r: Option<string>)
    ensures r.Some? ==> r.value in options && CanonicalKey(r.value) == CanonicalKey(selected)
  {
    if selected in options then Some(selected)
    else
      var matches := FlatMap(SameKeyAs(CanonicalKey(selected)), options);
      FlatMapMembers(SameKeyAs(CanonicalKey(selected)), options, if |matches| == 1 then matches[0] else "");
      if |matches| == 1 then Some(matches[0]) else None
  }

  // The option stands at this place, and it is the only place with that key.
  ghost predicate OnlyMatchAt(options: seq<string>, key: string, option: string, i: int) {
    && 0 <= i < |options| && options[i] == option && CanonicalKey(option) == key
    && forall j :: 0 <= j < |options| && CanonicalKey(options[j]) == key ==> j == i
  }

  ghost predicate OnlyMatch(options: seq<string>, key: string, option: string) {
    exists i :: OnlyMatchAt(options, key, option, i)
  }

  // A declared option stands for itself; any other text for the only option with its key, if
  // there is exactly one.
  lemma CanonicalOptionIff(options: seq<string>, selected: string, option: string)
    ensures CanonicalOption(options, selected) == Some(option) <==>
      if selected in options then option == selected else OnlyMatch(options, CanonicalKey(selected), option)
  {
    if selected !in options {
      SingleMatch(options, CanonicalKey(selected), option);
    }
  }

  lemma {:induction false} SingleMatch(options: seq<string>, key: string, option: string)
    ensures FlatMap(SameKeyAs(key), options) == [option] <==> OnlyMatch(options, key, option)
  {
    if options != [] {
      var init, last := options[..|options| - 1], options[|options| - 1];
      assert options == init + [last];
      if CanonicalKey(last) == key {
        MatchAtTheEnd(init, last, key, option);
        assert SameKeyAs(key)(last) == [last];
      } else {
        SingleMatch(init, key, option);
        EarlierMatch(init, last, key, option);
        assert FlatMap(SameKeyAs(key), init) + [] == FlatMap(SameKeyAs(key), init);
      }
    }
  }

  lemma MatchAtTheEnd(init: seq<string>, last: string, key: string, option: string)
    requires CanonicalKey(last) == key
    ensures FlatMap(SameKeyAs(key), init) + [last] == [option] <==> OnlyMatch(init + [last], key, option)
  {
    var found := FlatMap(SameKeyAs(key), init);
    assert found + [last] == [option] <==> found == [] && last == option by {
      if found + [last] == [option] {
        assert |found| == 0 && (found + [last])[0] == option;
      }
    }
    FlatMapIsEmpty(SameKeyAs(key), init);
    assert found == [] <==> forall j :: 0 <= j < |init| ==> CanonicalKey(init[j]) != key;
    LastMatch(init, last, key, option);
  }

  lemma LastMatch(init: seq<string>, last: string, key: string, option: string)
    requires CanonicalKey(last) == key
    ensures OnlyMatch(init + [last], key, option) <==>
            option == last && forall j :: 0 <= j < |init| ==> CanonicalKey(init[j]) != key
  {
    var options := init + [last];
    assert options[|init|] == last;
    if option == last && forall j :: 0 <= j < |init| ==> CanonicalKey(init[j]) != key {
      assert OnlyMatchAt(options, key, option, |init|);
    }
    if OnlyMatch(options, key, option) {
      var i :| OnlyMatchAt(options, key, option, i);
      assert i == |init| && forall j :: 0 <= j < |init| ==> options[j] == init[j];
    }
  }

  lemma EarlierMatch(init: seq<string>, last: string, key: string, option: string)
    requires CanonicalKey(last) != key
    ensures OnlyMatch(init + [last], key, option) <==> OnlyMatch(init, key, option)
  {
    var options := init + [last];
    if OnlyMatch(options, key, option) {
      var i :| OnlyMatchAt(options, key, option, i);
      assert forall j :: 0 <= j < |init| ==> options[j] == init[j];
      assert OnlyMatchAt(init, key, option, i);
    }
    if OnlyMatch(init, key, option) {
      var i :| OnlyMatchAt(init, key, option, i);
      assert OnlyMatchAt(options, key, option, i);
    }
  }

  // The normal form of a value found under a select key.
  function CanonicalValue(f: Field, found: Json): Json {
    if found.Str? then
      var option := CanonicalOption(f.options, found.text);
      if option.Some? then Str(option.value) else found
    else found
  }

  lemma CanonicalValueIsIdempotent(f: Field, found: Json)
    ensures CanonicalValue(f, CanonicalValue(f, found)) == CanonicalValue(f, found)
  {
  }

  function ReplaceAt(j: Json, path: seq<string>, value: Json): Json
    requires Lookup(j, path).Some?
    decreases path
  {
    if path == [] then value
    else Object(j.fields[path[0] := ReplaceAt(j.fields[path[0]], path[1..], value)])
  }

  function NormalizeStep(j: Json, f: Field): Json {
    var found := Lookup(j, f.Path());
    if f.IsStaticSelect() && found.Some? then ReplaceAt(j, f.Path(), CanonicalValue(f, found.value)) else j
  }

  function Normalize(spec: Spec, overrides: Json): Json {
    Fold(NormalizeStep, overrides, spec)
  }

  lemma {:induction false} ReplaceWithItself(j: Json, path: seq<string>)
    requires Lookup(j, path).Some?
    ensures ReplaceAt(j, path, Lookup(j, path).value) == j
    decreases path
  {
    if path != [] {
      ReplaceWithItself(j.fields[path[0]], path[1..]);
    }
  }

  // One field of the loop: only a string under a static select key is ever overwritten.
  method NormalizeField(config: Json, f: Field) returns (normalized: Json)
    ensures normalized == NormalizeStep(config, f)
  {
    normalized := config;
    if f.kind != SelectKind || f.options == [] || f.hasQuery {
      return;
    }
    var found := Lookup(config, f.Path());
    if found.None? {
      return;
    }
    ReplaceWithItself(config, f.Path());
    if !found.value.Str? {
      return;
    }
    var canonical := CanonicalOption(f.options, found.value.text);
    if canonical.Some? && canonical.value != found.value.text {
      normalized := ReplaceAt(config, f.Path(), Str(canonical.value));
    }
  }

  method NormalizeConfig(spec: Spec, overrides: Json) returns (normalized: Json)
    ensures normalized == Normalize(spec, overrides)
  {
    normalized := overrides;
    for n := 0 to |spec|
      invariant normalized == Fold(NormalizeStep, overrides, spec[..n])
    {
      assert spec[..n + 1] == spec[..n] + [spec[n]];
      FoldAppend(NormalizeStep, overrides, spec[..n], spec[n]);
      normalized := NormalizeField(normalized, spec[n]);
    }
    assert spec[..|spec|] == spec;
  }

  // ----- What one can see at a path -----

  datatype Seen = Missing | Leaf(value: Json) | Branch(keys: set<string>)

  function See(j: Json, path: seq<string>): Seen {
    var found := Lookup(j, path);
    if found.None? then Missing
    else if found.value.Object? then Branch(found.value.fields.Keys)
    else Leaf(found.value)
  }

  // Replacing one leaf by another leaf is seen at its path and nowhere else.
  lemma {:induction false} ReplaceLeafIsLocal(j: Json, path: seq<string>, value: Json, other: seq<string>)
    requires Lookup(j, path).Some? && !Lookup(j, path).value.Object? && !value.Object?
    ensures See(ReplaceAt(j, path, value), other) == if other == path then Leaf(value) else See(j, other)
    decreases path
  {
    if path != [] && other != [] && path[0] == other[0] {
      assert path == [path[0]] + path[1..] && other == [other[0]] + other[1..];
      ReplaceLeafIsLocal(j.fields[path[0]], path[1..], value, other[1..]);
    }
  }

  function SeenCanonical(f: Field, seen: Seen): Seen {
    if seen.Leaf? then Leaf(CanonicalValue(f, seen.value)) else seen
  }

  lemma StepSeen(j: Json, f: Field, path: seq<string>)
    ensures See(NormalizeStep(j, f), path) ==
            if f.IsStaticSelect() && path == f.Path() then SeenCanonical(f, See(j, path)) else See(j, path)
  {
    var found := Lookup(j, f.Path());
    if f.IsStaticSelect() && found.Some? {
      if found.value.Object? {
        ReplaceWithItself(j, f.Path());
      } else {
        ReplaceLeafIsLocal(j, f.Path(), CanonicalValue(f, found.value), path);
      }
    }
  }

  // ----- Whole specs -----

  ghost predicate SelectPathsDistinct(spec: Spec) {
    forall i, j :: 0 <= i < j < |spec| && spec[i].IsStaticSelect() && spec[j].IsStaticSelect() ==>
      spec[i].Path() != spec[j].Path()
  }

  // Outside the static select keys nothing changes.
  lemma {:induction false} NormalizeElsewhere(spec: Spec, overrides: Json, path: seq<string>)
    requires forall f :: f in spec && f.IsStaticSelect() ==> f.Path() != path
    ensures See(Normalize(spec, overrides), path) == See(overrides, path)
  {
    if spec != [] {
      var init := spec[..|spec| - 1];
      assert forall f :: f in init ==> f in spec;
      NormalizeElsewhere(init, overrides, path);
      StepSeen(Normalize(init, overrides), spec[|spec| - 1], path);
    }
  }

  // At a static select key, a string becomes its declared option; anything else stays.
  lemma {:induction false} NormalizeAtSelect(spec: Spec, overrides: Json, f: Field)
    requires SelectPathsDistinct(spec) && f in spec && f.IsStaticSelect()
    ensures See(Normalize(spec, overrides), f.Path()) == SeenCanonical(f, See(overrides, f.Path()))
  {
    var init, last := spec[..|spec| - 1], spec[|spec| - 1];
    assert spec == init + [last];
    StepSeen(Normalize(init, overrides), last, f.Path());
    if f in init {
      NormalizeAtSelect(init, overrides, f);
      var i :| 0 <= i < |init| && init[i] == f;
      assert spec[i] == f;
    } else {
      NormalizeElsewhere(init, overrides, f.Path());
    }
  }

  lemma {:induction false} FixedBySteps(spec: Spec, j: Json)
    requires forall f :: f in spec ==> NormalizeStep(j, f) == j
    ensures Normalize(spec, j) == j
  {
    if spec != [] {
      assert forall f :: f in spec[..|spec| - 1] ==> f in spec;
      FixedBySteps(spec[..|spec| - 1], j);
    }
  }

  lemma NormalizeIsIdempotent(spec: Spec, overrides: Json)
    requires SelectPathsDistinct(spec)
    ensures Normalize(spec, Normalize(spec, overrides)) == Normalize(spec, overrides)
  {
    var once := Normalize(spec, overrides);
    forall f | f in spec
      ensures NormalizeStep(once, f) == once
    {
      var found := Lookup(once, f.Path());
      if f.IsStaticSelect() && found.Some? {
        NormalizeAtSelect(spec, overrides, f);
        assert CanonicalValue(f, found.value) == found.value;
        ReplaceWithItself(once, f.Path());
      }
    }
    FixedBySteps(spec, once);
  }
}
