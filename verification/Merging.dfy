/**
 Merging user overrides over defaults, rewriting whole floats as integers, and the
 containment check on the merged document.
 */
module Merging {
  import opened Common
  import opened JsonValues

  function Merge(defaults: Json, overrides: Json): Json
    decreases overrides
  {
    if defaults.Object? && overrides.Object? then
      Object(map k | k in defaults.fields.Keys + overrides.fields.Keys ::
        if k !in overrides.fields then defaults.fields[k]
        else if k !in defaults.fields then overrides.fields[k]
        else Merge(defaults.fields[k], overrides.fields[k]))
    else overrides
  }

  method MergeJsonDefaults(defaults: Json, overrides: Json) returns (merged: Json)
    ensures merged == Merge(defaults, overrides)
    decreases overrides
  {
    if !defaults.Object? || !overrides.Object? {
      return overrides;
    }
    var fields := defaults.fields;
    var remaining := overrides.fields.Keys;
    while remaining != {}
      invariant remaining <= overrides.fields.Keys
      invariant fields.Keys == defaults.fields.Keys + (overrides.fields.Keys - remaining)
      invariant forall k :: k in fields ==>
        fields[k] == if k in overrides.fields && k !in remaining then Merge(defaults, overrides).fields[k]
                     else defaults.fields[k]
      decreases remaining
    {
      var key :| key in remaining;
      if key in fields {
        var member := MergeJsonDefaults(fields[key], overrides.fields[key]);
        fields := fields[key := member];
      } else {
        fields := fields[key := overrides.fields[key]];
      }
      remaining := remaining - {key};
    }
    merged := Object(fields);
    assert fields == Merge(defaults, overrides).fields;
  }

  // ----- The merged value at any path -----

  // Some strict ancestor of the path is overridden by something that is not an object.
  predicate Blocked(overrides: Json, path: seq<string>) {
    path != [] && (!overrides.Object? || (path[0] in overrides.fields && Blocked(overrides.fields[path[0]], path[1..])))
  }

  function MergeMember(default: Option<Json>, override: Option<Json>): Option<Json> {
    if override.None? then default
    else if default.None? then override
    else Some(Merge(default.value, override.value))
  }

  // The blocking ancestor is a non-object found on a strict prefix.
  lemma {:induction false} BlockedIffAncestorIsNotObject(overrides: Json, path: seq<string>)
    ensures Blocked(overrides, path) <==>
            exists n: nat :: n < |path| && Lookup(overrides, path[..n]).Some? && !Lookup(overrides, path[..n]).value.Object?
  {
    if path != [] {
      assert Lookup(overrides, path[..0]) == Some(overrides);
      if overrides.Object? && path[0] in overrides.fields {
        var inner := overrides.fields[path[0]];
        BlockedIffAncestorIsNotObject(inner, path[1..]);
        forall n: nat | n < |path| - 1
          ensures Lookup(overrides, path[..n + 1]) == Lookup(inner, path[1..][..n])
        {
          assert path[..n + 1][1..] == path[1..][..n];
        }
        if n: nat :| n < |path| && Lookup(overrides, path[..n]).Some? && !Lookup(overrides, path[..n]).value.Object? {
          assert n > 0;
          assert Lookup(overrides, path[..(n - 1) + 1]) == Lookup(inner, path[1..][..n - 1]);
        }
      } else {
        forall n: nat | 0 < n < |path|
          ensures Lookup(overrides, path[..n]).None?
        {
          assert path[..n][0] == path[0];
        }
      }
    }
  }

  lemma {:induction false} MergeLookup(defaults: Json, overrides: Json, path: seq<string>)
    ensures Lookup(Merge(defaults, overrides), path) ==
            if Blocked(overrides, path) then None
            else MergeMember(Lookup(defaults, path), Lookup(overrides, path))
    decreases path
  {
    if path != [] && overrides.Object? && path[0] in overrides.fields {
      if defaults.Object? && path[0] in defaults.fields {
        MergeLookup(defaults.fields[path[0]], overrides.fields[path[0]], path[1..]);
      } else {
        NotBlockedBelow(overrides.fields[path[0]], path[1..]);
      }
    }
  }

  lemma {:induction false} NotBlockedBelow(j: Json, path: seq<string>)
    ensures Blocked(j, path) ==> Lookup(j, path).None?
  {
    if path != [] && j.Object? && path[0] in j.fields {
      NotBlockedBelow(j.fields[path[0]], path[1..]);
    }
  }

  // ----- Absorption laws -----

  lemma {:induction false} MergeWithItself(j: Json)
    ensures Merge(j, j) == j
  {
    if j.Object? {
      forall k | k in j.fields
        ensures Merge(j.fields[k], j.fields[k]) == j.fields[k]
      {
        MergeWithItself(j.fields[k]);
      }
      assert Merge(j, j).fields == j.fields;
    }
  }

  // Merging the defaults under the result again changes nothing.
  lemma {:induction false} MergeAbsorbsDefaults(d: Json, o: Json)
    ensures Merge(d, Merge(d, o)) == Merge(d, o)
    decreases o
  {
    if d.Object? && o.Object? {
      var once := Merge(d, o);
      forall k | k in once.fields
        ensures Merge(d, once).fields[k] == once.fields[k]
      {
        if k in d.fields {
          if k in o.fields {
            MergeAbsorbsDefaults(d.fields[k], o.fields[k]);
          } else {
            MergeWithItself(d.fields[k]);
          }
        }
      }
      assert Merge(d, once).fields == once.fields;
    }
  }

  // Applying the same overrides again changes nothing.
  lemma {:induction false} MergeAbsorbsOverrides(d: Json, o: Json)
    ensures Merge(Merge(d, o), o) == Merge(d, o)
    decreases o
  {
    if d.Object? && o.Object? {
      var once := Merge(d, o);
      forall k | k in once.fields
        ensures Merge(once, o).fields[k] == once.fields[k]
      {
        if k in o.fields {
          if k in d.fields {
            MergeAbsorbsOverrides(d.fields[k], o.fields[k]);
          } else {
            MergeWithItself(o.fields[k]);
          }
        }
      }
      assert Merge(once, o).fields == once.fields;
    } else {
      MergeWithItself(o);
    }
  }

  // ----- Every place in a document -----

  datatype PathStep = Member(key: string) | Index(index: nat)

  // What is found by members and array indices.
  function At(j: Json, path: seq<PathStep>): Option<Json> {
    if path == [] then Some(j)
    else match path[0]
      case Member(key) => if j.Object? && key in j.fields then At(j.fields[key], path[1..]) else None
      case Index(i) => if j.Array? && i < |j.items| then At(j.items[i], path[1..]) else None
  }

  // ----- Whole floats -----

  function CanonicalNumber(n: Number): Number {
    if n.Float? && FitsI64AsDouble(n.decimal) then Integer(SaturateToI64(n.decimal.Floor)) else n
  }

  function Canonicalize(j: Json): Json {
    match j
    case Num(n) => Num(CanonicalNumber(n))
    case Array(items) => Array(seq(|items|, i requires 0 <= i < |items| => Canonicalize(items[i])))
    case Object(fields) => Object(map k | k in fields :: Canonicalize(fields[k]))
    case _ => j
  }

  // A float token that is a whole number within the range of 64-bit integers, or 2^63.
  ghost predicate WholeFloat(n: Number) {
    n.Float? && n.decimal == n.decimal.Floor as real
    && -9_223_372_036_854_775_808 <= n.decimal.Floor <= 9_223_372_036_854_775_808
  }

  // What rewriting makes of the value in one place: a whole float becomes the integer of its
  // value, at the upper edge 2^63 - 1; everything else keeps its shape or stays as it is.
  ghost predicate Rewritten(before: Json, after: Json) {
    match before
    case Num(n) =>
      after == if WholeFloat(n) then Num(Integer(if n.decimal.Floor == 9_223_372_036_854_775_808 then 9_223_372_036_854_775_807
                                                 else n.decimal.Floor))
               else before
    case Array(items) => after.Array? && |after.items| == |items|
    case Object(fields) => after.Object? && after.fields.Keys == fields.Keys
    case _ => after == before
  }

  // Every place of a document is rewritten so, and no place appears or disappears.
  lemma {:induction false} CanonicalizeRewrites(j: Json, path: seq<PathStep>)
    ensures At(Canonicalize(j), path).Some? <==> At(j, path).Some?
    ensures At(j, path).Some? ==> Rewritten(At(j, path).value, At(Canonicalize(j), path).value)
  {
    if path != [] {
      match path[0]
      case Member(key) =>
        if j.Object? && key in j.fields {
          CanonicalizeRewrites(j.fields[key], path[1..]);
        }
      case Index(i) =>
        if j.Array? && i < |j.items| {
          CanonicalizeRewrites(j.items[i], path[1..]);
        }
    }
  }

  // So no whole float is left anywhere, and where there is none nothing changes.
  lemma {:induction false} NoWholeFloatIsLeft(j: Json, path: seq<PathStep>)
    ensures
      var found := At(Canonicalize(j), path);
      found.Some? && found.value.Num? ==> !WholeFloat(found.value.number)
  {
    CanonicalizeRewrites(j, path);
  }

  lemma {:induction false} CanonicalizeIsIdempotent(j: Json)
    ensures Canonicalize(Canonicalize(j)) == Canonicalize(j)
  {
    match j
    case Array(items) =>
      forall i | 0 <= i < |items|
        ensures Canonicalize(Canonicalize(items[i])) == Canonicalize(items[i])
      {
        CanonicalizeIsIdempotent(items[i]);
      }
      assert Canonicalize(Canonicalize(j)).items == Canonicalize(j).items;
    case Object(fields) =>
      forall k | k in fields
        ensures Canonicalize(Canonicalize(fields[k])) == Canonicalize(fields[k])
      {
        CanonicalizeIsIdempotent(fields[k]);
      }
      assert Canonicalize(Canonicalize(j)).fields == Canonicalize(j).fields;
    case _ =>
  }

  // Merging then canonicalising, as the loader does, equals canonicalising both first.
  lemma {:induction false} CanonicalizeCommutesWithMerge(d: Json, o: Json)
    ensures Canonicalize(Merge(d, o)) == Merge(Canonicalize(d), Canonicalize(o))
    decreases o
  {
    if d.Object? && o.Object? {
      var left, right := Canonicalize(Merge(d, o)), Merge(Canonicalize(d), Canonicalize(o));
      forall k | k in left.fields
        ensures left.fields[k] == right.fields[k]
      {
        if k in d.fields && k in o.fields {
          CanonicalizeCommutesWithMerge(d.fields[k], o.fields[k]);
        }
      }
      assert left.fields == right.fields;
    }
  }

  lemma {:induction false} CanonicalizeLookup(j: Json, path: seq<string>)
    ensures Lookup(Canonicalize(j), path) ==
            (var found := Lookup(j, path); if found.Some? then Some(Canonicalize(found.value)) else None)
  {
    if path != [] && j.Object? && path[0] in j.fields {
      CanonicalizeLookup(j.fields[path[0]], path[1..]);
    }
  }

  // ----- Containment -----

  predicate NumbersMatch(actual: real, expected: real) {
    -0.000001 <= actual - expected <= 0.000001
  }

  ghost predicate Contains(actual: Json, expected: Json)
    decreases expected
  {
    if actual.Object? && expected.Object? then
      forall k :: k in expected.fields ==> k in actual.fields && Contains(actual.fields[k], expected.fields[k])
    else if actual.Array? && expected.Array? then
      && |actual.items| == |expected.items|
      && forall i :: 0 <= i < |expected.items| ==> Contains(actual.items[i], expected.items[i])
    else
      || actual == expected
      || (actual.Num? && expected.Num? && NumbersMatch(AsDouble(actual.number), AsDouble(expected.number)))
  }

  method ValidateJsonContains(actual: Json, expected: Json, path: seq<PathStep>) returns (errors: seq<seq<PathStep>>)
    ensures errors == [] <==> Contains(actual, expected)
    ensures forall e :: e in errors ==> path <= e
    decreases expected
  {
    errors := [];
    if actual.Object? && expected.Object? {
      var remaining := expected.fields.Keys;
      while remaining != {}
        invariant remaining <= expected.fields.Keys
        invariant errors == [] <==>
          forall k :: k in expected.fields && k !in remaining ==>
            k in actual.fields && Contains(actual.fields[k], expected.fields[k])
        invariant forall e :: e in errors ==> path <= e
        decreases remaining
      {
        var key :| key in remaining;
        remaining := remaining - {key};
        if key in actual.fields {
          var inner := ValidateJsonContains(actual.fields[key], expected.fields[key], path + [Member(key)]);
          errors := errors + inner;
        } else {
          errors := errors + [path + [Member(key)]];
        }
      }
    } else if actual.Array? && expected.Array? {
      if |actual.items| != |expected.items| {
        errors := [path];
        return;
      }
      for i := 0 to |expected.items|
        invariant errors == [] <==> forall n :: 0 <= n < i ==> Contains(actual.items[n], expected.items[n])
        invariant forall e :: e in errors ==> path <= e
      {
        var inner := ValidateJsonContains(actual.items[i], expected.items[i], path + [Index(i)]);
        errors := errors + inner;
      }
    } else if actual.Num? && expected.Num? && NumbersMatch(AsDouble(actual.number), AsDouble(expected.number)) {
    } else if actual == expected {
    } else {
      errors := [path];
    }
  }

  // Containment reaches every path: what is expected there is there, and equal when it is
  // null, a flag or a string.
  lemma {:induction false} ContainsAtEveryPath(actual: Json, expected: Json, path: seq<string>)
    requires Contains(actual, expected) && Lookup(expected, path).Some?
    ensures Lookup(actual, path).Some?
    ensures Contains(Lookup(actual, path).value, Lookup(expected, path).value)
    ensures
      var leaf := Lookup(expected, path).value;
      leaf.Null? || leaf.Bool? || leaf.Str? ==> Lookup(actual, path).value == leaf
    decreases path
  {
    if path != [] {
      ContainsAtEveryPath(actual.fields[path[0]], expected.fields[path[0]], path[1..]);
    }
  }

  // What may stand in the place of an expected value.
  ghost predicate StandsFor(actual: Json, expected: Json) {
    match expected
    case Object(_) => actual.Object?
    case Array(items) => actual.Array? && |actual.items| == |items|
    case Num(n) =>
      actual == expected || (actual.Num? && -0.000001 <= AsDouble(actual.number) - AsDouble(n) <= 0.000001)
    case _ => actual == expected
  }

  ghost predicate StandsEverywhere(actual: Json, expected: Json) {
    forall path :: At(expected, path).Some? ==>
      At(actual, path).Some? && StandsFor(At(actual, path).value, At(expected, path).value)
  }

  // A document contains another exactly when in every place of the other it has a value that may
  // stand there: any object, an array of the same length, a number within a millionth, or the
  // same leaf.
  lemma ContainsIff(actual: Json, expected: Json)
    ensures Contains(actual, expected) <==> StandsEverywhere(actual, expected)
  {
    if Contains(actual, expected) {
      forall path | At(expected, path).Some?
        ensures At(actual, path).Some? && StandsFor(At(actual, path).value, At(expected, path).value)
      {
        ContainedStands(actual, expected, path);
      }
    }
    if StandsEverywhere(actual, expected) {
      StandingIsContained(actual, expected);
    }
  }

  lemma {:induction false} ContainedStands(actual: Json, expected: Json, path: seq<PathStep>)
    requires Contains(actual, expected) && At(expected, path).Some?
    ensures At(actual, path).Some? && StandsFor(At(actual, path).value, At(expected, path).value)
    decreases path
  {
    if path != [] {
      match path[0]
      case Member(key) =>
        ContainedStands(actual.fields[key], expected.fields[key], path[1..]);
      case Index(i) =>
        ContainedStands(actual.items[i], expected.items[i], path[1..]);
    }
  }

  lemma {:induction false} StandingIsContained(actual: Json, expected: Json)
    requires StandsEverywhere(actual, expected)
    ensures Contains(actual, expected)
    decreases expected
  {
    assert At(expected, []) == Some(expected) && At(actual, []) == Some(actual);
    if expected.Object? {
      forall k | k in expected.fields
        ensures k in actual.fields && Contains(actual.fields[k], expected.fields[k])
      {
        StandsBelow(actual, expected, Member(k), expected.fields[k]);
        StandingIsContained(actual.fields[k], expected.fields[k]);
      }
    } else if expected.Array? {
      forall i | 0 <= i < |expected.items|
        ensures Contains(actual.items[i], expected.items[i])
      {
        StandsBelow(actual, expected, Index(i), expected.items[i]);
        StandingIsContained(actual.items[i], expected.items[i]);
      }
    }
  }

  lemma StandsBelow(actual: Json, expected: Json, step: PathStep, inner: Json)
    requires StandsEverywhere(actual, expected) && At(expected, [step]) == Some(inner)
    ensures At(actual, [step]).Some? && StandsEverywhere(At(actual, [step]).value, inner)
  {
    forall path | At(inner, path).Some?
      ensures At(At(actual, [step]).value, path).Some?
      ensures StandsFor(At(At(actual, [step]).value, path).value, At(inner, path).value)
    {
      assert ([step] + path)[1..] == path && [step][1..] == [];
      assert At(expected, [step] + path) == At(inner, path);
      assert At(actual, [step] + path) == At(At(actual, [step]).value, path);
    }
  }

  lemma {:induction false} ContainsItself(j: Json)
    ensures Contains(j, j)
  {
    match j
    case Array(items) =>
      forall i | 0 <= i < |items| ensures Contains(items[i], items[i]) { ContainsItself(items[i]); }
    case Object(fields) =>
      forall k | k in fields ensures Contains(fields[k], fields[k]) { ContainsItself(fields[k]); }
    case _ =>
  }

  // Whatever the defaults, the merged document contains every override.
  lemma {:induction false} MergeContainsOverrides(d: Json, o: Json)
    ensures Contains(Merge(d, o), o)
    decreases o
  {
    if d.Object? && o.Object? {
      forall k | k in o.fields
        ensures Contains(Merge(d, o).fields[k], o.fields[k])
      {
        if k in d.fields {
          MergeContainsOverrides(d.fields[k], o.fields[k]);
        } else {
          ContainsItself(o.fields[k]);
        }
      }
    } else {
      ContainsItself(o);
    }
  }
}
